/** The genesis block as the node builds it, and the header the mining tool writes byte by
    byte: they agree, and the block is valid whatever the hash function.
 */
module Genesis {
  import opened Types
  import opened Bytes
  import opened WireFormat
  import opened Ledger
  import Blockchain
  import Chain
  import Framing
  import Merkle
  import Midstate
  import Rewards

  const MESSAGE: string := "CDX Genesis - Codex Coin, 21,000,000 CDX, SHA-256d PoW, UTXO, P2P"
  const TIMESTAMP: uint32 := 1_717_200_000

  predicate Fits(message: seq<byte>) {
    1 <= |message| < 100
  }

  function Coinbase(reward: int64, message: seq<byte>): Transaction
    requires Fits(message)
  {
    Transaction(1, [TxIn(OutPoint(0, NULL_INDEX), [|message|] + message, 0xffff_ffff)], [TxOut(reward, [0x51])], 0)
  }

  /** CreateGenesisBlock. */
  function CreateGenesisBlock(c: Crypto, bits: uint32, reward: int64, timestamp: uint32, message: seq<byte>,
                              nonce: uint32): Block
    requires Fits(message)
  {
    var vtx := [Coinbase(reward, message)];
    Block(BlockHeader(1, 0, Merkle.MerkleRoot(c, Merkle.TxIds(c, vtx)), timestamp, bits, nonce), vtx)
  }

  /** GetGenesisBlock: what a network starts from. */
  function GenesisOf(c: Crypto, params: Params): Block {
    CreateGenesisBlock(c, params.minDifficultyBits, 5_000_000_000, TIMESTAMP, Framing.Ascii(MESSAGE), params.genesisNonce)
  }

  /** The genesis block of every network connects, for every hash function and whatever nonce
      is put in: only the search for a nonce can fail. */
  lemma GenesisConnects(c: Crypto, params: Params, nonce: uint32)
    ensures var g := GenesisOf(c, params);
            Chain.GenesisState(c, g.(header := g.header.(nonce := nonce))).Some?
  {
    hide TxId, Merkle.MerkleRoot;
    var g := GenesisOf(c, params);
    var b := g.(header := g.header.(nonce := nonce));
    var cb := b.vtx[0];
    assert b.vtx[1..] == [];
    assert cb.vout == [] + [cb.vout[0]];
    SumOutSnoc([], cb.vout[0]);
    SumOutNone();
    Rewards.SubsidySchedule(0);
    FirstHalving();
  }

  /** So a node starts if and only if its configured nonce passes or some nonce meets the
      target. */
  lemma GenesisStarts(c: Crypto, params: Params)
    ensures var g := Blockchain.GenesisBlock(c, params, GenesisOf(c, params));
            g.Some? ==> Chain.GenesisState(c, g.value).Some?
  {
    hide GenesisOf, Chain.GenesisState, Chain.HeaderOk, Blockchain.FirstNonce;
    var candidate, g := GenesisOf(c, params), Blockchain.GenesisBlock(c, params, GenesisOf(c, params));
    if g.Some? {
      GenesisConnects(c, params, g.value.header.nonce);
      assert g.value == candidate.(header := candidate.header.(nonce := g.value.header.nonce));
    }
  }

  lemma FirstHalving()
    ensures Rewards.Subsidy(0) == 5_000_000_000
  {
    Rewards.FirstReward();
  }

  // ------------------------------------------------------------ the mining tool

  /** build_genesis_header: the coinbase and then the header, byte by byte. */
  method BuildGenesisHeader(f: Midstate.Compress, timestamp: uint32, bits: uint32, reward: int64, message: seq<byte>)
    returns (hdr: array<byte>)
    requires Fits(message) && reward >= 0
    ensures fresh(hdr) && hdr[..] == ToolHeader(f, timestamp, bits, reward, message)
  {
    hide LE, Midstate.Sha256, ToolCoinbase;
    var tx := BuildCoinbase(reward, message);
    var first := Midstate.Sha256Full(f, tx);
    var merkle := Midstate.Sha256Full(f, first);
    hdr := new byte[80](i => 0);
    hdr[0] := 1;
    var t, b := LE(timestamp, 4), LE(bits, 4);
    Put(hdr, 36, merkle);
    Put(hdr, 68, t);
    Put(hdr, 72, b);
    assert hdr[..36] == [1] + ZeroBytes(35) && hdr[76..] == [0, 0, 0, 0];
    assert hdr[..] == hdr[..36] + hdr[36..68] + hdr[68..72] + hdr[72..76] + hdr[76..];
  }

  /** Overwrites part of a buffer. */
  method Put(buf: array<byte>, at: nat, bytes: seq<byte>)
    requires at + |bytes| <= buf.Length
    modifies buf
    ensures buf[at..at + |bytes|] == bytes
    ensures forall k :: 0 <= k < buf.Length && !(at <= k < at + |bytes|) ==> buf[k] == old(buf[k])
  {
    for i := 0 to |bytes|
      invariant buf[at..at + i] == bytes[..i]
      invariant forall k :: 0 <= k < buf.Length && !(at <= k < at + i) ==> buf[k] == old(buf[k])
    {
      buf[at + i] := bytes[i];
    }
  }

  method BuildCoinbase(reward: int64, message: seq<byte>) returns (tx: seq<byte>)
    requires Fits(message) && reward >= 0
    ensures tx == ToolCoinbase(reward, message)
  {
    hide LE;
    var scriptSig := [|message|] + message;
    tx := [1, 0, 0, 0];
    tx := tx + [1];
    tx := tx + ZeroBytes(32);
    tx := tx + [0xff, 0xff, 0xff, 0xff];
    tx := tx + [|scriptSig|];
    tx := tx + scriptSig;
    tx := tx + [0xff, 0xff, 0xff, 0xff];
    tx := tx + [1];
    tx := tx + LE(reward, 8);
    tx := tx + [1];
    tx := tx + [0x51];
    tx := tx + [0, 0, 0, 0];
  }

  function ToolCoinbase(reward: int64, message: seq<byte>): seq<byte>
    requires Fits(message) && reward >= 0
  {
    [1, 0, 0, 0] + [1] + ZeroBytes(32) + [0xff, 0xff, 0xff, 0xff] + [|message| + 1] + ([|message|] + message)
    + [0xff, 0xff, 0xff, 0xff] + [1] + LE(reward, 8) + [1] + [0x51] + [0, 0, 0, 0]
  }

  function ToolHeader(f: Midstate.Compress, timestamp: uint32, bits: uint32, reward: int64, message: seq<byte>): seq<byte>
    requires Fits(message) && reward >= 0
  {
    [1] + ZeroBytes(35) + Midstate.Sha256d(f, ToolCoinbase(reward, message)) + LE(timestamp, 4) + LE(bits, 4) + [0, 0, 0, 0]
  }

  lemma SmallLE()
    ensures LE(0, 4) == [0, 0, 0, 0] && LE(1, 4) == [1, 0, 0, 0] && LE(0, 32) == ZeroBytes(32)
    ensures LE(0xffff_ffff, 4) == [0xff, 0xff, 0xff, 0xff]
  {
    assert LE(0, 0) == [];
    ZeroLE(32);
  }

  lemma {:induction false} ZeroLE(k: nat)
    ensures LE(0, k) == ZeroBytes(k)
  {
    if k > 0 {
      ZeroLE(k - 1);
    }
  }

  /** The bytes the tool writes are the node's serialization of the coinbase. */
  lemma ToolWritesCoinbase(reward: int64, message: seq<byte>)
    requires Fits(message) && reward >= 0
    ensures ToolCoinbase(reward, message) == SerTx(Coinbase(reward, message))
  {
    hide LE, SerIn, SerOut, SerIns, SerOuts, SerTx;
    var tx := Coinbase(reward, message);
    OnePart(tx.vin[0], tx.vout[0]);
    TxBytes(tx);
    InBytes(tx.vin[0]);
    OutBytes(tx.vout[0]);
    var script := [|message|] + message;
    Regroup([1, 0, 0, 0], ZeroBytes(32), [0xff, 0xff, 0xff, 0xff], [|script|], script, LE(reward, 8));
  }

  lemma OnePart(i: TxIn, o: TxOut)
    ensures SerIns([i]) == SerIn(i) && SerOuts([o]) == SerOut(o)
  {
    hide SerIn, SerOut;
    assert SerIns([i][..0]) == [] && SerOuts([o][..0]) == [];
  }

  lemma TxBytes(tx: Transaction)
    requires tx.version == 1 && tx.lockTime == 0 && |tx.vin| == 1 && |tx.vout| == 1
    ensures SerTx(tx) == [1, 0, 0, 0] + ([1] + (SerIns(tx.vin) + ([1] + (SerOuts(tx.vout) + [0, 0, 0, 0]))))
  {
    hide SerIns, SerOuts;
    SmallLE();
  }

  lemma InBytes(i: TxIn)
    requires i.prevout == OutPoint(0, NULL_INDEX) && i.sequence == 0xffff_ffff && |i.scriptSig| < 253
    ensures var ff := [0xff, 0xff, 0xff, 0xff];
            SerIn(i) == ZeroBytes(32) + (ff + (([|i.scriptSig|] + i.scriptSig) + ff))
  {
    SmallLE();
  }

  lemma OutBytes(o: TxOut)
    requires o.value >= 0 && o.scriptPubKey == [0x51]
    ensures SerOut(o) == LE(o.value, 8) + ([1] + [0x51])
  {
  }

  lemma Regroup(a: seq<byte>, z: seq<byte>, ff: seq<byte>, n: seq<byte>, s: seq<byte>, v: seq<byte>)
    ensures a + ([1] + ((z + (ff + ((n + s) + ff))) + ([1] + ((v + ([1] + [0x51])) + [0, 0, 0, 0]))))
         == a + [1] + z + ff + n + s + ff + [1] + v + [1] + [0x51] + [0, 0, 0, 0]
  {
  }

  /** The tool mines the header of the node's genesis block: with the node's hash, its 80
      bytes are the serialization of that header with nonce 0. */
  lemma ToolMinesGenesis(c: Crypto, f: Midstate.Compress, params: Params)
    requires forall x :: c.sha256d(x) == FromLE(Midstate.Sha256d(f, x))
    ensures ToolHeader(f, 1_717_200_000, params.minDifficultyBits, 5_000_000_000, Framing.Ascii(MESSAGE))
         == SerHeader(GenesisOf(c, params).header.(nonce := 0))
  {
    hide Midstate.Sha256d, SerTx, LE, TxId, FromLE, Framing.Ascii, Merkle.MerkleRoot;
    var g, cb := GenesisOf(c, params), Coinbase(5_000_000_000, Framing.Ascii(MESSAGE));
    ToolWritesCoinbase(5_000_000_000, Framing.Ascii(MESSAGE));
    SmallLE();
    RootOfOne(c, cb);
    assert LE(g.header.merkleRoot, 32) == Midstate.Sha256d(f, SerTx(cb)) by { IdBytes(c, f, cb); }
    assert [1] + ZeroBytes(35) == [1, 0, 0, 0] + ZeroBytes(32);
  }

  lemma RootOfOne(c: Crypto, tx: Transaction)
    ensures Merkle.MerkleRoot(c, Merkle.TxIds(c, [tx])) == TxId(c, tx)
  {
    hide TxId;
    assert Merkle.TxIds(c, [tx]) == [TxId(c, tx)];
  }

  lemma IdBytes(c: Crypto, f: Midstate.Compress, tx: Transaction)
    requires forall x :: c.sha256d(x) == FromLE(Midstate.Sha256d(f, x))
    ensures LE(TxId(c, tx), 32) == Midstate.Sha256d(f, SerTx(tx))
  {
    hide Midstate.Sha256d, SerTx, LE, FromLE;
    WriteRead(Midstate.Sha256d(f, SerTx(tx)));
  }
}
