/** The serializer and deserializer objects: an append buffer, and a bounds-checked
    cursor. Each operation is proved against the wire format.
 */
module Serializer {
  import Arith
  import opened Types
  import opened Bytes
  import opened WireFormat

  lemma LEPrefix(v: nat, i: nat)
    ensures LE(v, i + 1) == LE(v, i) + [(v / Pow256(i)) % 256]
  {
    if i != 0 {
      LEPrefix(v / 256, i - 1);
      Arith.DivDiv(v, 256, Pow256(i - 1));
    }
  }

  class Writer {
    var buf: seq<byte>

    constructor ()
      ensures buf == []
    {
      buf := [];
    }

    method WriteBytes(b: seq<byte>)
      modifies this
      ensures buf == old(buf) + b
    {
      buf := buf + b;
    }

    /** The loops of WriteU16, WriteU32 and WriteU64: k bytes, low byte first. */
    method WriteWord(v: nat, k: nat)
      modifies this
      ensures buf == old(buf) + LE(v, k)
    {
      assert buf == old(buf) + LE(v, 0);
      for i := 0 to k
        invariant buf == old(buf) + LE(v, i)
      {
        LEPrefix(v, i);
        buf := buf + [(v / Pow256(i)) % 256];
        assert buf == old(buf) + (LE(v, i) + [(v / Pow256(i)) % 256]);
      }
    }

    method WriteVarInt(v: uint64)
      modifies this
      ensures buf == old(buf) + VarInt(v)
    {
      hide LE;
      if v < 0xfd {
        WriteBytes([v]);
      } else if v <= 0xffff {
        WriteBytes([0xfd]);
        WriteWord(v, 2);
      } else if v <= 0xffff_ffff {
        WriteBytes([0xfe]);
        WriteWord(v, 4);
      } else {
        WriteBytes([0xff]);
        WriteWord(v, 8);
      }
    }

    method WriteVarStr(s: seq<byte>)
      requires |s| < TWO_64
      modifies this
      ensures buf == old(buf) + VarStr(s)
    {
      WriteVarInt(|s|);
      WriteBytes(s);
    }

    method WriteInput(i: TxIn)
      requires InFits(i)
      modifies this
      ensures buf == old(buf) + SerIn(i)
    {
      hide LE, VarStr;
      WriteWord(i.prevout.hash, 32);
      WriteWord(i.prevout.n, 4);
      WriteVarStr(i.scriptSig);
      WriteWord(i.sequence, 4);
    }

    method WriteOutput(o: TxOut)
      requires OutFits(o)
      modifies this
      ensures buf == old(buf) + SerOut(o)
    {
      hide LE, VarStr;
      WriteWord(AsU64(o.value), 8);
      WriteVarStr(o.scriptPubKey);
    }
  }

  method SerializeTransaction(tx: Transaction) returns (r: seq<byte>)
    requires TxFits(tx)
    ensures r == SerTx(tx)
  {
    hide LE, VarInt, SerIn, SerOut, InFits, OutFits, SerIns, SerOuts;
    SerEmpty([], 0);
    var s := new Writer();
    s.WriteWord(AsU32(tx.version), 4);
    s.WriteVarInt(|tx.vin|);
    ghost var head := s.buf;
    assert s.buf == head + SerIns(tx.vin[..0]);
    for i := 0 to |tx.vin|
      invariant s.buf == head + SerIns(tx.vin[..i])
    {
      s.WriteInput(tx.vin[i]);
      assert tx.vin[..i + 1] == tx.vin[..i] + [tx.vin[i]];
      SerInsSnoc(tx.vin[..i], tx.vin[i]);
    }
    assert tx.vin[..|tx.vin|] == tx.vin;
    s.WriteVarInt(|tx.vout|);
    head := s.buf;
    assert s.buf == head + SerOuts(tx.vout[..0]);
    for i := 0 to |tx.vout|
      invariant s.buf == head + SerOuts(tx.vout[..i])
    {
      s.WriteOutput(tx.vout[i]);
      assert tx.vout[..i + 1] == tx.vout[..i] + [tx.vout[i]];
      SerOutsSnoc(tx.vout[..i], tx.vout[i]);
    }
    assert tx.vout[..|tx.vout|] == tx.vout;
    s.WriteWord(tx.lockTime, 4);
    r := s.buf;
  }

  method SerializeBlockHeader(h: BlockHeader) returns (r: seq<byte>)
    ensures r == SerHeader(h)
  {
    hide LE;
    var s := new Writer();
    s.WriteWord(AsU32(h.version), 4);
    s.WriteWord(h.prevBlockHash, 32);
    s.WriteWord(h.merkleRoot, 32);
    s.WriteWord(h.timestamp, 4);
    s.WriteWord(h.bits, 4);
    s.WriteWord(h.nonce, 4);
    r := s.buf;
  }

  method SerializeBlock(b: Block) returns (r: seq<byte>)
    requires BlockFits(b)
    ensures r == SerBlock(b)
  {
    hide SerHeader, SerTx, VarInt;
    var s := new Writer();
    var header := SerializeBlockHeader(b.header);
    s.WriteBytes(header);
    s.WriteVarInt(|b.vtx|);
    ghost var head := s.buf;
    for i := 0 to |b.vtx|
      invariant s.buf == head + SerTxs(b.vtx[..i])
    {
      var tx := SerializeTransaction(b.vtx[i]);
      s.WriteBytes(tx);
      assert b.vtx[..i + 1][..i] == b.vtx[..i];
    }
    assert b.vtx[..|b.vtx|] == b.vtx;
    r := s.buf;
  }

  /** A cursor over a buffer. A failed read leaves the cursor inside the buffer. */
  class Reader {
    const p: seq<byte>
    var pos: nat

    ghost predicate Valid()
      reads this
    {
      pos <= |p|
    }

    constructor (data: seq<byte>)
      ensures p == data && pos == 0 && Valid()
    {
      p := data;
      pos := 0;
    }

    method ReadBytes(n: nat) returns (ok: bool, b: seq<byte>)
      requires Valid()
      modifies this
      ensures Valid()
      ensures ok == WireFormat.ReadBytes(p, old(pos), n).Got?
      ensures ok ==> WireFormat.ReadBytes(p, old(pos), n) == Got(b, pos)
      ensures !ok ==> pos == old(pos)
    {
      if pos + n > |p| {
        return false, [];
      }
      ok, b := true, p[pos..pos + n];
      pos := pos + n;
    }

    /** ReadU16, ReadU32, ReadU64 and ReadUint256: k bytes, low byte first. */
    method ReadWord(k: nat) returns (ok: bool, v: nat)
      requires Valid()
      modifies this
      ensures Valid()
      ensures ok == ReadLE(p, old(pos), k).Got?
      ensures ok ==> ReadLE(p, old(pos), k) == Got(v, pos)
    {
      var b;
      ok, b := ReadBytes(k);
      v := 0;
      if ok {
        var i := k;
        while i > 0
          invariant 0 <= i <= k
          invariant v == FromLE(b[i..])
        {
          i := i - 1;
          assert b[i..][1..] == b[i + 1..];
          v := b[i] + 256 * v;
        }
        assert b[0..] == b;
      }
    }

    method ReadVarInt() returns (ok: bool, v: uint64)
      requires Valid()
      modifies this
      ensures Valid()
      ensures ok == WireFormat.ReadVarInt(p, old(pos)).Got?
      ensures ok ==> WireFormat.ReadVarInt(p, old(pos)) == Got(v, pos)
    {
      hide FromLE;
      Pow256Values();
      v := 0;
      var first;
      ok, first := ReadBytes(1);
      if !ok {
        return;
      }
      if first[0] < 0xfd {
        v := first[0];
      } else {
        var k := if first[0] == 0xfd then 2 else if first[0] == 0xfe then 4 else 8;
        var x;
        ok, x := ReadWord(k);
        if ok {
          v := x;
        }
      }
    }

    method ReadVarStr() returns (ok: bool, b: seq<byte>)
      requires Valid()
      modifies this
      ensures Valid()
      ensures ok == WireFormat.ReadVarStr(p, old(pos)).Got?
      ensures ok ==> WireFormat.ReadVarStr(p, old(pos)) == Got(b, pos)
    {
      hide WireFormat.ReadVarInt;
      b := [];
      var n;
      ok, n := ReadVarInt();
      if ok {
        if n > |p| - pos {
          ok := false;
        } else {
          ok, b := ReadBytes(n);
        }
      }
    }

    method ReadInput() returns (ok: bool, i: TxIn)
      requires Valid()
      modifies this
      ensures Valid()
      ensures ok == ReadIn(p, old(pos)).Got?
      ensures ok ==> ReadIn(p, old(pos)) == Got(i, pos)
    {
      hide FromLE, Pow256, WireFormat.ReadVarStr;
      Pow256Values();
      i := TxIn(OutPoint(0, 0), [], 0xffff_ffff);
      var hash, n, script, sequence;
      ok, hash := ReadWord(32);
      if !ok { return; }
      ok, n := ReadWord(4);
      if !ok { return; }
      ok, script := ReadVarStr();
      if !ok { return; }
      ok, sequence := ReadWord(4);
      if !ok { return; }
      i := TxIn(OutPoint(hash, n), script, sequence);
    }

    method ReadOutput() returns (ok: bool, o: TxOut)
      requires Valid()
      modifies this
      ensures Valid()
      ensures ok == ReadOut(p, old(pos)).Got?
      ensures ok ==> ReadOut(p, old(pos)) == Got(o, pos)
    {
      hide FromLE, Pow256, WireFormat.ReadVarStr;
      Pow256Values();
      o := TxOut(0, []);
      var v, script;
      ok, v := ReadWord(8);
      if !ok { return; }
      ok, script := ReadVarStr();
      if !ok { return; }
      o := TxOut(AsI64(v), script);
    }

    method ReadInputs(n: nat) returns (ok: bool, xs: seq<TxIn>)
      requires Valid()
      modifies this
      ensures Valid()
      ensures ok == ReadIns(p, old(pos), n).Got?
      ensures ok ==> ReadIns(p, old(pos), n) == Got(xs, pos)
    {
      hide ReadIn;
      xs := [];
      for i := 0 to n
        invariant Valid()
        invariant ReadIns(p, old(pos), i) == Got(xs, pos)
      {
        var x;
        ok, x := ReadInput();
        if !ok {
          ReadInsFails(p, old(pos), i + 1, n);
          return;
        }
        xs := xs + [x];
      }
      ok := true;
    }

    method ReadOutputs(n: nat) returns (ok: bool, xs: seq<TxOut>)
      requires Valid()
      modifies this
      ensures Valid()
      ensures ok == ReadOuts(p, old(pos), n).Got?
      ensures ok ==> ReadOuts(p, old(pos), n) == Got(xs, pos)
    {
      hide ReadOut;
      xs := [];
      for i := 0 to n
        invariant Valid()
        invariant ReadOuts(p, old(pos), i) == Got(xs, pos)
      {
        var x;
        ok, x := ReadOutput();
        if !ok {
          ReadOutsFails(p, old(pos), i + 1, n);
          return;
        }
        xs := xs + [x];
      }
      ok := true;
    }
  }

  lemma {:induction false} ReadInsFails(d: seq<byte>, pos: nat, i: nat, n: nat)
    requires i <= n && ReadIns(d, pos, i).Fail?
    ensures ReadIns(d, pos, n).Fail?
  {
    hide ReadIn;
    if i < n {
      ReadInsFails(d, pos, i, n - 1);
    }
  }

  lemma {:induction false} ReadOutsFails(d: seq<byte>, pos: nat, i: nat, n: nat)
    requires i <= n && ReadOuts(d, pos, i).Fail?
    ensures ReadOuts(d, pos, n).Fail?
  {
    hide ReadOut;
    if i < n {
      ReadOutsFails(d, pos, i, n - 1);
    }
  }

  lemma {:induction false} ReadTxsFails(d: seq<byte>, pos: nat, i: nat, n: nat)
    requires i <= n && pos <= |d| && ReadTxs(d, pos, i).Fail?
    ensures ReadTxs(d, pos, n).Fail?
  {
    hide ReadTx, SerTx;
    if i < n {
      ReadTxsFails(d, pos, i, n - 1);
    }
  }

  method DeserializeTransaction(data: seq<byte>) returns (r: Option<Transaction>)
    ensures r.Some? == ReadTx(data).Got?
    ensures r.Some? ==> r.value == ReadTx(data).value
  {
    hide ReadIns, ReadOuts, WireFormat.ReadVarInt, FromLE, Pow256;
    Pow256Values();
    var d := new Reader(data);
    var ok, ver := d.ReadWord(4);
    if !ok { return None; }
    var nvin, vin, nvout, vout, lockTime;
    ok, nvin := d.ReadVarInt();
    if !ok || nvin > MAX_COUNT { return None; }
    ok, vin := d.ReadInputs(nvin);
    if !ok { return None; }
    ok, nvout := d.ReadVarInt();
    if !ok || nvout > MAX_COUNT { return None; }
    ok, vout := d.ReadOutputs(nvout);
    if !ok { return None; }
    ok, lockTime := d.ReadWord(4);
    if !ok { return None; }
    r := Some(Transaction(AsI32(ver), vin, vout, lockTime));
  }

  method DeserializeBlockHeader(data: seq<byte>) returns (r: Option<BlockHeader>)
    ensures r.Some? == ReadHeader(data).Got?
    ensures r.Some? ==> r.value == ReadHeader(data).value
  {
    hide FromLE;
    Pow256Values();
    var d := new Reader(data);
    var prev, root, timestamp, bits, nonce;
    var ok, ver := d.ReadWord(4);
    if !ok { return None; }
    ok, prev := d.ReadWord(32);
    if !ok { return None; }
    ok, root := d.ReadWord(32);
    if !ok { return None; }
    ok, timestamp := d.ReadWord(4);
    if !ok { return None; }
    ok, bits := d.ReadWord(4);
    if !ok { return None; }
    ok, nonce := d.ReadWord(4);
    if !ok { return None; }
    r := Some(BlockHeader(AsI32(ver), prev, root, timestamp, bits, nonce));
  }

  /** The cursor never leaves the buffer, although it is advanced by the length of each
      transaction serialized again (Valid is kept by ReadTxLength). */
  method DeserializeBlock(data: seq<byte>) returns (r: Option<Block>)
    requires |data| < TWO_64
    ensures r == ReadBlock(data)
  {
    hide ReadTx, SerTx, ReadHeader, WireFormat.ReadVarInt;
    var header := DeserializeBlockHeader(data);
    if header.None? { return None; }
    var d := new Reader(data);
    d.pos := 80;
    var ok, ntx := d.ReadVarInt();
    if !ok || ntx > MAX_COUNT { return None; }
    var vtx := [];
    ghost var start := d.pos;
    for i := 0 to ntx
      invariant d.Valid() && d.p == data
      invariant ReadTxs(data, start, i) == Got(vtx, d.pos)
    {
      var tx := DeserializeTransaction(data[d.pos..]);
      if tx.None? {
        ReadTxsFails(data, start, i + 1, ntx);
        return None;
      }
      ReadTxLength(data[d.pos..]);
      ReadTxFits(data[d.pos..]);
      var again := SerializeTransaction(tx.value);
      d.pos := d.pos + |again|;
      vtx := vtx + [tx.value];
    }
    r := Some(Block(header.value, vtx));
  }
}
