/** The wire format of transactions and blocks, as functions: what the serializer
    writes, what the deserializer reads, and how the two relate.
 */
module WireFormat {
  import opened Types
  import opened Bytes

  const MAX_COUNT: nat := 100_000

  /** What a reader returns: the value and the position after it. */
  datatype Read<+T> = Fail | Got(value: T, pos: nat)

  // ---------------------------------------------------------------- writing

  function VarInt(v: nat): (b: seq<byte>) {
    if v < 0xfd then [v]
    else if v <= 0xffff then [0xfd] + LE(v, 2)
    else if v <= 0xffff_ffff then [0xfe] + LE(v, 4)
    else [0xff] + LE(v, 8)
  }

  function VarStr(s: seq<byte>): seq<byte> {
    VarInt(|s|) + s
  }

  function SerIn(i: TxIn): seq<byte> {
    LE(i.prevout.hash, 32) + (LE(i.prevout.n, 4) + (VarStr(i.scriptSig) + LE(i.sequence, 4)))
  }

  function SerIns(ins: seq<TxIn>): seq<byte> {
    if ins == [] then [] else SerIns(ins[..|ins| - 1]) + SerIn(ins[|ins| - 1])
  }

  function SerOut(o: TxOut): seq<byte> {
    LE(AsU64(o.value), 8) + VarStr(o.scriptPubKey)
  }

  function SerOuts(outs: seq<TxOut>): seq<byte> {
    if outs == [] then [] else SerOuts(outs[..|outs| - 1]) + SerOut(outs[|outs| - 1])
  }

  function SerTx(tx: Transaction): seq<byte> {
    LE(AsU32(tx.version), 4) + (VarInt(|tx.vin|) + (SerIns(tx.vin)
      + (VarInt(|tx.vout|) + (SerOuts(tx.vout) + LE(tx.lockTime, 4)))))
  }

  function SerHeader(h: BlockHeader): (b: seq<byte>)
    ensures |b| == 80
  {
    LE(AsU32(h.version), 4) + (LE(h.prevBlockHash, 32) + (LE(h.merkleRoot, 32)
      + (LE(h.timestamp, 4) + (LE(h.bits, 4) + LE(h.nonce, 4)))))
  }

  function SerTxs(txs: seq<Transaction>): seq<byte> {
    if txs == [] then [] else SerTxs(txs[..|txs| - 1]) + SerTx(txs[|txs| - 1])
  }

  function SerBlock(b: Block): seq<byte> {
    SerHeader(b.header) + (VarInt(|b.vtx|) + SerTxs(b.vtx))
  }

  lemma SerInsSnoc(xs: seq<TxIn>, x: TxIn)
    ensures SerIns(xs + [x]) == SerIns(xs) + SerIn(x)
  {
    hide SerIn;
    assert (xs + [x])[..|xs|] == xs;
  }

  lemma SerOutsSnoc(xs: seq<TxOut>, x: TxOut)
    ensures SerOuts(xs + [x]) == SerOuts(xs) + SerOut(x)
  {
    hide SerOut;
    assert (xs + [x])[..|xs|] == xs;
  }

  /** Identifiers: double SHA-256 of the serialized form. */
  function TxId(c: Crypto, tx: Transaction): Hash {
    c.sha256d(SerTx(tx))
  }

  function HeaderHash(c: Crypto, h: BlockHeader): Hash {
    c.sha256d(SerHeader(h))
  }

  function BlockHash(c: Crypto, blk: Block): Hash {
    HeaderHash(c, blk.header)
  }

  // ---------------------------------------------------------------- reading

  function ReadBytes(d: seq<byte>, pos: nat, n: nat): Read<seq<byte>> {
    if pos + n > |d| then Fail else Got(d[pos..pos + n], pos + n)
  }

  function ReadLE(d: seq<byte>, pos: nat, n: nat): (r: Read<nat>)
    ensures r.Got? ==> r.value < Pow256(n) && r.pos == pos + n <= |d|
  {
    if pos + n > |d| then Fail else Got(FromLE(d[pos..pos + n]), pos + n)
  }

  function ReadU32(d: seq<byte>, pos: nat): (r: Read<uint32>) {
    Pow256Values();
    ReadLE(d, pos, 4)
  }

  function ReadU64(d: seq<byte>, pos: nat): (r: Read<uint64>) {
    Pow256Values();
    ReadLE(d, pos, 8)
  }

  function ReadHash(d: seq<byte>, pos: nat): (r: Read<Hash>) {
    Pow256Values();
    ReadLE(d, pos, 32)
  }

  function ReadVarInt(d: seq<byte>, pos: nat): (r: Read<uint64>)
    ensures r.Got? ==> pos < r.pos <= |d|
  {
    if pos + 1 > |d| then Fail
    else if d[pos] < 0xfd then Got(d[pos], pos + 1)
    else if d[pos] == 0xfd then Pow256Values(); ReadLE(d, pos + 1, 2)
    else if d[pos] == 0xfe then ReadU32(d, pos + 1)
    else ReadU64(d, pos + 1)
  }

  function ReadVarStr(d: seq<byte>, pos: nat): (r: Read<seq<byte>>)
    ensures r.Got? ==> pos < r.pos <= |d|
  {
    match ReadVarInt(d, pos)
    case Fail => Fail
    case Got(n, p) => if n > |d| - p then Fail else ReadBytes(d, p, n)
  }

  function ReadIn(d: seq<byte>, pos: nat): (r: Read<TxIn>)
    ensures r.Got? ==> pos < r.pos <= |d|
  {
    match ReadHash(d, pos) case Fail => Fail case Got(hash, p0) =>
    match ReadU32(d, p0) case Fail => Fail case Got(n, p1) =>
    match ReadVarStr(d, p1) case Fail => Fail case Got(script, p2) =>
    match ReadU32(d, p2) case Fail => Fail case Got(sequence, p3) =>
      Got(TxIn(OutPoint(hash, n), script, sequence), p3)
  }

  function ReadIns(d: seq<byte>, pos: nat, n: nat): (r: Read<seq<TxIn>>)
    ensures r.Got? ==> |r.value| == n && pos <= r.pos && (n > 0 ==> r.pos <= |d|)
  {
    if n == 0 then Got([], pos)
    else
      match ReadIns(d, pos, n - 1) case Fail => Fail case Got(xs, p0) =>
      match ReadIn(d, p0) case Fail => Fail case Got(x, p1) => Got(xs + [x], p1)
  }

  function ReadOut(d: seq<byte>, pos: nat): (r: Read<TxOut>)
    ensures r.Got? ==> pos < r.pos <= |d|
  {
    match ReadU64(d, pos) case Fail => Fail case Got(v, p0) =>
    match ReadVarStr(d, p0) case Fail => Fail case Got(script, p1) =>
      Got(TxOut(AsI64(v), script), p1)
  }

  function ReadOuts(d: seq<byte>, pos: nat, n: nat): (r: Read<seq<TxOut>>)
    ensures r.Got? ==> |r.value| == n && pos <= r.pos && (n > 0 ==> r.pos <= |d|)
  {
    if n == 0 then Got([], pos)
    else
      match ReadOuts(d, pos, n - 1) case Fail => Fail case Got(xs, p0) =>
      match ReadOut(d, p0) case Fail => Fail case Got(x, p1) => Got(xs + [x], p1)
  }

  /** A transaction read from the start of d. */
  function ReadTx(d: seq<byte>): (r: Read<Transaction>)
    ensures r.Got? ==> r.pos <= |d|
  {
    match ReadU32(d, 0) case Fail => Fail case Got(ver, p0) =>
    match ReadVarInt(d, p0) case Fail => Fail case Got(nvin, p1) =>
    if nvin > MAX_COUNT then Fail else
    match ReadIns(d, p1, nvin) case Fail => Fail case Got(vin, p2) =>
    match ReadVarInt(d, p2) case Fail => Fail case Got(nvout, p3) =>
    if nvout > MAX_COUNT then Fail else
    match ReadOuts(d, p3, nvout) case Fail => Fail case Got(vout, p4) =>
    match ReadU32(d, p4) case Fail => Fail case Got(lockTime, p5) =>
      Got(Transaction(AsI32(ver), vin, vout, lockTime), p5)
  }

  function ReadHeader(d: seq<byte>): (r: Read<BlockHeader>)
    ensures r.Got? <==> |d| >= 80
    ensures r.Got? ==> r.pos == 80
  {
    match ReadU32(d, 0) case Fail => Fail case Got(ver, p0) =>
    match ReadHash(d, p0) case Fail => Fail case Got(prev, p1) =>
    match ReadHash(d, p1) case Fail => Fail case Got(root, p2) =>
    match ReadU32(d, p2) case Fail => Fail case Got(timestamp, p3) =>
    match ReadU32(d, p3) case Fail => Fail case Got(bits, p4) =>
    match ReadU32(d, p4) case Fail => Fail case Got(nonce, p5) =>
      Got(BlockHeader(AsI32(ver), prev, root, timestamp, bits, nonce), p5)
  }

  /** Transactions in sequence. After each one the position advances by the length of
      the transaction serialized again, not by what the reader consumed.
   */
  function ReadTxs(d: seq<byte>, pos: nat, n: nat): (r: Read<seq<Transaction>>)
    requires pos <= |d|
    ensures r.Got? ==> |r.value| == n && pos <= r.pos <= |d|
  {
    if n == 0 then Got([], pos)
    else
      match ReadTxs(d, pos, n - 1) case Fail => Fail case Got(xs, p0) =>
      match ReadTx(d[p0..]) case Fail => Fail case Got(tx, used) =>
        ReadTxLength(d[p0..]);
        Got(xs + [tx], p0 + |SerTx(tx)|)
  }

  function ReadBlock(d: seq<byte>): (r: Option<Block>) {
    match ReadHeader(d) case Fail => None case Got(header, p0) =>
    match ReadVarInt(d, 80) case Fail => None case Got(ntx, p1) =>
    if ntx > MAX_COUNT then None else
    match ReadTxs(d, p1, ntx) case Fail => None case Got(vtx, p2) => Some(Block(header, vtx))
  }

  // ------------------------------------------------- where a string stands in another

  predicate At(d: seq<byte>, pos: nat, s: seq<byte>) {
    pos + |s| <= |d| && d[pos..pos + |s|] == s
  }

  lemma AtSplit(d: seq<byte>, pos: nat, a: seq<byte>, b: seq<byte>)
    ensures At(d, pos, a + b) <==> At(d, pos, a) && At(d, pos + |a|, b)
  {
    if pos + |a| + |b| <= |d| {
      var s := d[pos..pos + |a + b|];
      assert d[pos..pos + |a|] == s[..|a|];
      assert d[pos + |a|..pos + |a| + |b|] == s[|a|..];
      assert s == s[..|a|] + s[|a|..];
      assert (a + b)[..|a|] == a && (a + b)[|a|..] == b;
    }
  }

  lemma SerEmpty(d: seq<byte>, pos: nat)
    requires pos <= |d|
    ensures SerIns([]) == [] && SerOuts([]) == [] && At(d, pos, [])
  {
  }

  lemma AtPrefix(s: seq<byte>, suffix: seq<byte>)
    ensures At(s + suffix, 0, s)
  {
    assert (s + suffix)[0..|s|] == s;
  }

  // ------------------------------------------------- what was written is read back

  lemma ReadLEAt(d: seq<byte>, pos: nat, v: nat, k: nat)
    requires v < Pow256(k) && At(d, pos, LE(v, k))
    ensures ReadLE(d, pos, k) == Got(v, pos + k)
  {
    ReadWrite(v, k);
  }

  lemma VarIntAt(d: seq<byte>, pos: nat, v: uint64)
    requires At(d, pos, VarInt(v))
    ensures ReadVarInt(d, pos) == Got(v, pos + |VarInt(v)|)
  {
    Pow256Values();
    var s := d[pos..pos + |VarInt(v)|];
    assert s == VarInt(v);
    assert s[0] == d[pos];
    if 0xfd <= v <= 0xffff {
      AtSplit(d, pos, [0xfd], LE(v, 2));
      ReadLEAt(d, pos + 1, v, 2);
    } else if 0xffff < v <= 0xffff_ffff {
      AtSplit(d, pos, [0xfe], LE(v, 4));
      ReadLEAt(d, pos + 1, v, 4);
    } else if v > 0xffff_ffff {
      AtSplit(d, pos, [0xff], LE(v, 8));
      ReadLEAt(d, pos + 1, v, 8);
    }
  }

  lemma VarStrAt(d: seq<byte>, pos: nat, s: seq<byte>)
    requires |s| < TWO_64 && At(d, pos, VarStr(s))
    ensures ReadVarStr(d, pos) == Got(s, pos + |VarStr(s)|)
  {
    hide VarInt, ReadVarInt;
    AtSplit(d, pos, VarInt(|s|), s);
    VarIntAt(d, pos, |s|);
  }

  predicate InFits(i: TxIn) { |i.scriptSig| < TWO_64 }
  predicate OutFits(o: TxOut) { |o.scriptPubKey| < TWO_64 }

  lemma InAt(d: seq<byte>, pos: nat, i: TxIn)
    requires InFits(i) && At(d, pos, SerIn(i))
    ensures ReadIn(d, pos) == Got(i, pos + |SerIn(i)|)
  {
    hide At, LE, Pow256, ReadLE, VarStr, ReadVarStr;
    Pow256Values();
    var tail1 := VarStr(i.scriptSig) + LE(i.sequence, 4);
    var tail0 := LE(i.prevout.n, 4) + tail1;
    AtSplit(d, pos, LE(i.prevout.hash, 32), tail0);
    AtSplit(d, pos + 32, LE(i.prevout.n, 4), tail1);
    AtSplit(d, pos + 36, VarStr(i.scriptSig), LE(i.sequence, 4));
    ReadLEAt(d, pos, i.prevout.hash, 32);
    ReadLEAt(d, pos + 32, i.prevout.n, 4);
    VarStrAt(d, pos + 36, i.scriptSig);
    ReadLEAt(d, pos + 36 + |VarStr(i.scriptSig)|, i.sequence, 4);
  }

  lemma {:induction false} InsAt(d: seq<byte>, pos: nat, ins: seq<TxIn>)
    requires (forall i <- ins :: InFits(i)) && At(d, pos, SerIns(ins))
    ensures ReadIns(d, pos, |ins|) == Got(ins, pos + |SerIns(ins)|)
  {
    hide At, SerIn, ReadIn, SerIns, InFits;
    if ins == [] {
      assert SerIns(ins) == [] by { SerEmpty([], 0); }
    } else {
      var init, last := ins[..|ins| - 1], ins[|ins| - 1];
      assert ins == init + [last];
      SerInsSnoc(init, last);
      AtSplit(d, pos, SerIns(init), SerIn(last));
      InsAt(d, pos, init);
      InAt(d, pos + |SerIns(init)|, last);
    }
  }

  lemma OutAt(d: seq<byte>, pos: nat, o: TxOut)
    requires OutFits(o) && At(d, pos, SerOut(o))
    ensures ReadOut(d, pos) == Got(o, pos + |SerOut(o)|)
  {
    hide At, LE, Pow256, ReadLE, VarStr, ReadVarStr;
    Pow256Values();
    AtSplit(d, pos, LE(AsU64(o.value), 8), VarStr(o.scriptPubKey));
    ReadLEAt(d, pos, AsU64(o.value), 8);
    VarStrAt(d, pos + 8, o.scriptPubKey);
  }

  lemma {:induction false} OutsAt(d: seq<byte>, pos: nat, outs: seq<TxOut>)
    requires (forall o <- outs :: OutFits(o)) && At(d, pos, SerOuts(outs))
    ensures ReadOuts(d, pos, |outs|) == Got(outs, pos + |SerOuts(outs)|)
  {
    hide At, SerOut, ReadOut, SerOuts, OutFits;
    if outs == [] {
      assert SerOuts(outs) == [] by { SerEmpty([], 0); }
    } else {
      var init, last := outs[..|outs| - 1], outs[|outs| - 1];
      assert outs == init + [last];
      SerOutsSnoc(init, last);
      AtSplit(d, pos, SerOuts(init), SerOut(last));
      OutsAt(d, pos, init);
      OutAt(d, pos + |SerOuts(init)|, last);
    }
  }

  /** Every container the program can hold is shorter than 2^64. */
  predicate TxFits(tx: Transaction) {
    |tx.vin| < TWO_64 && |tx.vout| < TWO_64 && (forall i <- tx.vin :: InFits(i)) && (forall o <- tx.vout :: OutFits(o))
  }

  predicate WithinCounts(tx: Transaction) {
    |tx.vin| <= MAX_COUNT && |tx.vout| <= MAX_COUNT
  }

  /** Where the parts of a serialized transaction are read, whatever their number. */
  lemma TxFields(tx: Transaction, suffix: seq<byte>)
    requires TxFits(tx)
    ensures var d := SerTx(tx) + suffix;
            var p1 := 4 + |VarInt(|tx.vin|)|;
            var p2 := p1 + |SerIns(tx.vin)|;
            var p3 := p2 + |VarInt(|tx.vout|)|;
            var p4 := p3 + |SerOuts(tx.vout)|;
            && |SerTx(tx)| == p4 + 4
            && ReadU32(d, 0) == Got(AsU32(tx.version), 4)
            && ReadVarInt(d, 4) == Got(|tx.vin|, p1) && ReadIns(d, p1, |tx.vin|) == Got(tx.vin, p2)
            && ReadVarInt(d, p2) == Got(|tx.vout|, p3) && ReadOuts(d, p3, |tx.vout|) == Got(tx.vout, p4)
            && ReadU32(d, p4) == Got(tx.lockTime, p4 + 4)
  {
    hide At, SerIns, SerOuts, ReadIns, ReadOuts, ReadVarInt, VarInt, LE, FromLE, Pow256, InFits, OutFits;
    Pow256Values();
    var d := SerTx(tx) + suffix;
    var t4 := SerOuts(tx.vout) + LE(tx.lockTime, 4);
    var t3 := VarInt(|tx.vout|) + t4;
    var t2 := SerIns(tx.vin) + t3;
    var t1 := VarInt(|tx.vin|) + t2;
    AtPrefix(SerTx(tx), suffix);
    AtSplit(d, 0, LE(AsU32(tx.version), 4), t1);
    ReadLEAt(d, 0, AsU32(tx.version), 4);
    AtSplit(d, 4, VarInt(|tx.vin|), t2);
    VarIntAt(d, 4, |tx.vin|);
    var p1 := 4 + |VarInt(|tx.vin|)|;
    AtSplit(d, p1, SerIns(tx.vin), t3);
    InsAt(d, p1, tx.vin);
    var p2 := p1 + |SerIns(tx.vin)|;
    AtSplit(d, p2, VarInt(|tx.vout|), t4);
    VarIntAt(d, p2, |tx.vout|);
    var p3 := p2 + |VarInt(|tx.vout|)|;
    AtSplit(d, p3, SerOuts(tx.vout), LE(tx.lockTime, 4));
    OutsAt(d, p3, tx.vout);
    ReadLEAt(d, p3 + |SerOuts(tx.vout)|, tx.lockTime, 4);
  }

  /** A serialized transaction followed by anything is read back, and exactly it is
      consumed, if and only if its counts are within the reader's caps.
   */
  lemma TxRoundTrip(tx: Transaction, suffix: seq<byte>)
    requires TxFits(tx)
    ensures ReadTx(SerTx(tx) + suffix) == if WithinCounts(tx) then Got(tx, |SerTx(tx)|) else Fail
    ensures WithinCounts(tx) <==> |tx.vin| <= 100_000 && |tx.vout| <= 100_000
  {
    hide SerTx, SerIns, SerOuts, ReadIns, ReadOuts, ReadVarInt, ReadU32, VarInt, TxFits;
    TxFields(tx, suffix);
  }

  /** No two transactions serialize alike, whatever their size. */
  lemma SerTxInjective(t: Transaction, u: Transaction)
    requires TxFits(t) && TxFits(u) && SerTx(t) == SerTx(u)
    ensures t == u
  {
    hide SerTx, SerIns, SerOuts, ReadIns, ReadOuts, ReadVarInt, ReadU32, VarInt, TxFits;
    TxFields(t, []);
    TxFields(u, []);
  }

  /** The 80 bytes of a header, field by field. */
  lemma HeaderLayout(h: BlockHeader)
    ensures var b := SerHeader(h);
            && b[0..4] == LE(AsU32(h.version), 4) && b[4..36] == LE(h.prevBlockHash, 32)
            && b[36..68] == LE(h.merkleRoot, 32) && b[68..72] == LE(h.timestamp, 4)
            && b[72..76] == LE(h.bits, 4) && b[76..80] == LE(h.nonce, 4)
  {
    hide LE;
  }

  /** The four forms of a length. */
  lemma VarIntForms(v: nat)
    ensures v < 253 ==> VarInt(v) == [v]
    ensures 253 <= v < 0x1_0000 ==> VarInt(v) == [253, v % 256, v / 256]
    ensures 0x1_0000 <= v < 0x1_0000_0000 ==>
              VarInt(v) == [254, v % 256, v / 0x100 % 256, v / 0x1_0000 % 256, v / 0x100_0000]
    ensures v >= 0x1_0000_0000 ==> VarInt(v) == [255] + LE(v, 8)
  {
    hide LE;
    if 253 <= v < 0x1_0000 {
      TwoBytes(v);
    } else if 0x1_0000 <= v < 0x1_0000_0000 {
      FourBytes(v);
    }
  }

  lemma TwoBytes(v: nat)
    requires v < 0x1_0000
    ensures LE(v, 2) == [v % 256, v / 256]
  {
    assert LE(v / 256 / 256, 0) == [];
  }

  lemma FourBytes(v: nat)
    requires v < 0x1_0000_0000
    ensures LE(v, 4) == [v % 256, v / 0x100 % 256, v / 0x1_0000 % 256, v / 0x100_0000]
  {
    hide LE, Pow256;
    Pow256Values();
    PowThree();
    NoPlace();
    LEAt(v, 4, 0);
    LEAt(v, 4, 1);
    LEAt(v, 4, 2);
    LEAt(v, 4, 3);
    assert v / 0x100_0000 % 256 == v / 0x100_0000;
  }

  lemma NoPlace()
    ensures Pow256(0) == 1
  {
  }

  lemma HeaderRoundTrip(h: BlockHeader, suffix: seq<byte>)
    ensures ReadHeader(SerHeader(h) + suffix) == Got(h, 80)
  {
    hide LE, At, ReadLE, Pow256;
    Pow256Values();
    var d := SerHeader(h) + suffix;
    AtPrefix(SerHeader(h), suffix);
    var t4 := LE(h.bits, 4) + LE(h.nonce, 4);
    var t3 := LE(h.timestamp, 4) + t4;
    var t2 := LE(h.merkleRoot, 32) + t3;
    var t1 := LE(h.prevBlockHash, 32) + t2;
    AtSplit(d, 0, LE(AsU32(h.version), 4), t1);
    AtSplit(d, 4, LE(h.prevBlockHash, 32), t2);
    AtSplit(d, 36, LE(h.merkleRoot, 32), t3);
    AtSplit(d, 68, LE(h.timestamp, 4), t4);
    AtSplit(d, 72, LE(h.bits, 4), LE(h.nonce, 4));
    ReadLEAt(d, 0, AsU32(h.version), 4);
    ReadLEAt(d, 4, h.prevBlockHash, 32);
    ReadLEAt(d, 36, h.merkleRoot, 32);
    ReadLEAt(d, 68, h.timestamp, 4);
    ReadLEAt(d, 72, h.bits, 4);
    ReadLEAt(d, 76, h.nonce, 4);
  }

  predicate BlockFits(b: Block) {
    |b.vtx| < TWO_64 && forall tx <- b.vtx :: TxFits(tx)
  }

  predicate BlockWithinCounts(b: Block) {
    |b.vtx| <= MAX_COUNT && forall tx <- b.vtx :: WithinCounts(tx)
  }

  lemma TxAt(d: seq<byte>, pos: nat, tx: Transaction)
    requires TxFits(tx) && At(d, pos, SerTx(tx))
    ensures ReadTx(d[pos..]) == if WithinCounts(tx) then Got(tx, |SerTx(tx)|) else Fail
  {
    assert d[pos..] == SerTx(tx) + d[pos + |SerTx(tx)|..];
    TxRoundTrip(tx, d[pos + |SerTx(tx)|..]);
  }

  lemma {:induction false} TxsAt(d: seq<byte>, pos: nat, txs: seq<Transaction>)
    requires (forall tx <- txs :: TxFits(tx)) && At(d, pos, SerTxs(txs))
    ensures ReadTxs(d, pos, |txs|) ==
            if forall tx <- txs :: WithinCounts(tx) then Got(txs, pos + |SerTxs(txs)|) else Fail
  {
    hide At, SerTx, ReadTx, WithinCounts, TxFits;
    if txs != [] {
      var init, last := txs[..|txs| - 1], txs[|txs| - 1];
      AtSplit(d, pos, SerTxs(init), SerTx(last));
      TxsAt(d, pos, init);
      assert txs == init + [last];
      TxAt(d, pos + |SerTxs(init)|, last);
    }
  }

  /** A serialized block followed by anything is read back if and only if all its
      counts are within the reader's caps. */
  lemma BlockRoundTrip(b: Block, suffix: seq<byte>)
    requires BlockFits(b)
    ensures ReadBlock(SerBlock(b) + suffix) == if BlockWithinCounts(b) then Some(b) else None
    ensures BlockWithinCounts(b) <==> |b.vtx| <= 100_000 && forall tx <- b.vtx :: WithinCounts(tx)
  {
    hide At, SerHeader, ReadHeader, ReadVarInt, VarInt, SerTxs, ReadTxs, WithinCounts, TxFits;
    var d := SerBlock(b) + suffix;
    var t0 := VarInt(|b.vtx|) + SerTxs(b.vtx);
    AtPrefix(SerBlock(b), suffix);
    AtSplit(d, 0, SerHeader(b.header), t0);
    assert d == SerHeader(b.header) + (t0 + suffix);
    HeaderRoundTrip(b.header, t0 + suffix);
    AtSplit(d, 80, VarInt(|b.vtx|), SerTxs(b.vtx));
    VarIntAt(d, 80, |b.vtx|);
    TxsAt(d, 80 + |VarInt(|b.vtx|)|, b.vtx);
  }

  // ------------------------------- the writer is never longer than what was read

  lemma VarIntLength(d: seq<byte>, pos: nat)
    requires ReadVarInt(d, pos).Got?
    ensures var r := ReadVarInt(d, pos);
            pos + |VarInt(r.value)| <= r.pos && (pos + |VarInt(r.value)| == r.pos ==> At(d, pos, VarInt(r.value)))
  {
    var r := ReadVarInt(d, pos);
    if pos + |VarInt(r.value)| == r.pos && d[pos] >= 0xfd {
      var k := r.pos - pos - 1;
      WriteRead(d[pos + 1..pos + 1 + k]);
      assert d[pos..r.pos] == [d[pos]] + d[pos + 1..pos + 1 + k];
    }
  }

  lemma VarStrLength(d: seq<byte>, pos: nat)
    requires ReadVarStr(d, pos).Got?
    ensures var r := ReadVarStr(d, pos);
            pos + |VarStr(r.value)| <= r.pos && (pos + |VarStr(r.value)| == r.pos ==> At(d, pos, VarStr(r.value)))
  {
    var r := ReadVarStr(d, pos);
    VarIntLength(d, pos);
    AtSplit(d, pos, VarInt(|r.value|), r.value);
  }

  lemma LEIsAt(d: seq<byte>, pos: nat, k: nat)
    requires ReadLE(d, pos, k).Got?
    ensures At(d, pos, LE(ReadLE(d, pos, k).value, k))
  {
    WriteRead(d[pos..pos + k]);
  }

  lemma InLength(d: seq<byte>, pos: nat)
    requires ReadIn(d, pos).Got?
    ensures var r := ReadIn(d, pos);
            pos + |SerIn(r.value)| <= r.pos && (pos + |SerIn(r.value)| == r.pos ==> At(d, pos, SerIn(r.value)))
  {
    hide LE, FromLE, At, VarStr, ReadVarStr, Pow256;
    var r := ReadIn(d, pos);
    var i := r.value;
    LEIsAt(d, pos, 32);
    LEIsAt(d, pos + 32, 4);
    VarStrLength(d, pos + 36);
    LEIsAt(d, r.pos - 4, 4);
    var tail1 := VarStr(i.scriptSig) + LE(i.sequence, 4);
    AtSplit(d, pos + 36, VarStr(i.scriptSig), LE(i.sequence, 4));
    AtSplit(d, pos + 32, LE(i.prevout.n, 4), tail1);
    AtSplit(d, pos, LE(i.prevout.hash, 32), LE(i.prevout.n, 4) + tail1);
  }

  lemma {:induction false} InsLength(d: seq<byte>, pos: nat, n: nat)
    requires ReadIns(d, pos, n).Got? && pos <= |d|
    ensures var r := ReadIns(d, pos, n);
            pos + |SerIns(r.value)| <= r.pos && (pos + |SerIns(r.value)| == r.pos ==> At(d, pos, SerIns(r.value)))
  {
    hide At, SerIn, ReadIn, SerIns;
    if n == 0 {
      SerEmpty(d, pos);
    } else {
      InsLength(d, pos, n - 1);
      var r0 := ReadIns(d, pos, n - 1);
      InLength(d, r0.pos);
      var x := ReadIn(d, r0.pos).value;
      SerInsSnoc(r0.value, x);
      AtSplit(d, pos, SerIns(r0.value), SerIn(x));
    }
  }

  lemma OutLength(d: seq<byte>, pos: nat)
    requires ReadOut(d, pos).Got?
    ensures var r := ReadOut(d, pos);
            pos + |SerOut(r.value)| <= r.pos && (pos + |SerOut(r.value)| == r.pos ==> At(d, pos, SerOut(r.value)))
  {
    var r := ReadOut(d, pos);
    LEIsAt(d, pos, 8);
    VarStrLength(d, pos + 8);
    AtSplit(d, pos, LE(AsU64(r.value.value), 8), VarStr(r.value.scriptPubKey));
  }

  lemma {:induction false} OutsLength(d: seq<byte>, pos: nat, n: nat)
    requires ReadOuts(d, pos, n).Got? && pos <= |d|
    ensures var r := ReadOuts(d, pos, n);
            pos + |SerOuts(r.value)| <= r.pos && (pos + |SerOuts(r.value)| == r.pos ==> At(d, pos, SerOuts(r.value)))
  {
    hide At, SerOut, ReadOut, SerOuts;
    if n == 0 {
      SerEmpty(d, pos);
    } else {
      OutsLength(d, pos, n - 1);
      var r0 := ReadOuts(d, pos, n - 1);
      OutLength(d, r0.pos);
      var x := ReadOut(d, r0.pos).value;
      SerOutsSnoc(r0.value, x);
      AtSplit(d, pos, SerOuts(r0.value), SerOut(x));
    }
  }

  /** Serializing what was read never takes more bytes than the reader consumed, so
      the block reader stays inside its buffer; and it takes exactly as many if and
      only if the bytes read were the canonical serialization.
   */
  lemma ReadTxLength(d: seq<byte>)
    ensures var r := ReadTx(d);
            r.Got? ==> |SerTx(r.value)| <= r.pos && (|SerTx(r.value)| == r.pos <==> d[..r.pos] == SerTx(r.value))
  {
    hide SerIns, SerOuts, ReadIns, ReadOuts, ReadVarInt, VarInt;
    var r := ReadTx(d);
    if r.Got? {
      var tx := r.value;
      LEIsAt(d, 0, 4);
      VarIntLength(d, 4);
      var p1 := ReadVarInt(d, 4).pos;
      InsLength(d, p1, |tx.vin|);
      var p2 := ReadIns(d, p1, |tx.vin|).pos;
      VarIntLength(d, p2);
      var p3 := ReadVarInt(d, p2).pos;
      OutsLength(d, p3, |tx.vout|);
      LEIsAt(d, r.pos - 4, 4);
      var t4 := SerOuts(tx.vout) + LE(tx.lockTime, 4);
      var t3 := VarInt(|tx.vout|) + t4;
      var t2 := SerIns(tx.vin) + t3;
      var t1 := VarInt(|tx.vin|) + t2;
      if |SerTx(tx)| == r.pos {
        AtSplit(d, p3, SerOuts(tx.vout), LE(tx.lockTime, 4));
        AtSplit(d, p2, VarInt(|tx.vout|), t4);
        AtSplit(d, p1, SerIns(tx.vin), t3);
        AtSplit(d, 4, VarInt(|tx.vin|), t2);
        AtSplit(d, 0, LE(AsU32(tx.version), 4), t1);
      }
    }
  }

  /** Whatever is read from a buffer fits in memory again. */
  lemma ReadTxFits(d: seq<byte>)
    requires |d| < TWO_64
    ensures ReadTx(d).Got? ==> TxFits(ReadTx(d).value)
  {
    hide ReadIns, ReadOuts, ReadVarInt;
    var r := ReadTx(d);
    if r.Got? {
      var p1 := ReadVarInt(d, 4).pos;
      InsFit(d, p1, |r.value.vin|);
      var p2 := ReadIns(d, p1, |r.value.vin|).pos;
      var p3 := ReadVarInt(d, p2).pos;
      OutsFit(d, p3, |r.value.vout|);
    }
  }

  lemma InFit(d: seq<byte>, pos: nat)
    requires |d| < TWO_64
    ensures ReadIn(d, pos).Got? ==> InFits(ReadIn(d, pos).value)
    ensures ReadOut(d, pos).Got? ==> OutFits(ReadOut(d, pos).value)
  {
    hide ReadVarInt;
  }

  lemma {:induction false} InsFit(d: seq<byte>, pos: nat, n: nat)
    requires |d| < TWO_64 && ReadIns(d, pos, n).Got?
    ensures forall i <- ReadIns(d, pos, n).value :: InFits(i)
  {
    hide ReadIn;
    if n != 0 {
      InsFit(d, pos, n - 1);
      InFit(d, ReadIns(d, pos, n - 1).pos);
    }
  }

  lemma {:induction false} OutsFit(d: seq<byte>, pos: nat, n: nat)
    requires |d| < TWO_64 && ReadOuts(d, pos, n).Got?
    ensures forall o <- ReadOuts(d, pos, n).value :: OutFits(o)
  {
    hide ReadOut;
    if n != 0 {
      OutsFit(d, pos, n - 1);
      InFit(d, ReadOuts(d, pos, n - 1).pos);
    }
  }
}
