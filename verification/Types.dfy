/** Entities of the ledger: transactions, coins, blocks, network parameters,
    and the foreign functions (hash and script verification) the node calls.
 */
module Types {

  const TWO_32: nat := 0x1_0000_0000
  const TWO_64: nat := 0x1_0000_0000_0000_0000
  const TWO_256: nat :=
    0x1_0000_0000_0000_0000_0000_0000_0000_0000_0000_0000_0000_0000_0000_0000_0000_0000

  type byte = x: nat | x < 256
  type uint32 = x: nat | x < TWO_32
  type uint64 = x: nat | x < TWO_64
  type int32 = x: int | -0x8000_0000 <= x < 0x8000_0000
  type int64 = x: int | -0x8000_0000_0000_0000 <= x < 0x8000_0000_0000_0000
  /** A 256-bit number: a hash read little-endian, a target, or chain work. */
  type Hash = x: nat | x < TWO_256

  const COIN: int64 := 100_000_000
  const MAX_MONEY: int64 := 21_000_000 * COIN
  const COINBASE_MATURITY: int64 := 120
  const MAX_TX_COUNT_PER_BLOCK: nat := 10_000
  const NULL_INDEX: uint32 := 0xffff_ffff

  // limits of the loaders of the chainstate file and of the block index
  const MAX_HEIGHTS: nat := 100_000_000
  const MAX_COINS: nat := 1_000_000_000
  const MAX_SCRIPT: nat := 100_000
  const MAX_ENTRIES: nat := 100_000_000

  datatype Option<+T> = None | Some(value: T)

  datatype OutPoint = OutPoint(hash: Hash, n: uint32)

  datatype TxIn = TxIn(prevout: OutPoint, scriptSig: seq<byte>, sequence: uint32)

  datatype TxOut = TxOut(value: int64, scriptPubKey: seq<byte>)

  datatype Transaction = Transaction(version: int32, vin: seq<TxIn>, vout: seq<TxOut>, lockTime: uint32) {
    predicate IsCoinBase() {
      |vin| == 1 && vin[0].prevout.hash == 0 && vin[0].prevout.n == NULL_INDEX
    }
  }

  datatype BlockHeader = BlockHeader(version: int32, prevBlockHash: Hash, merkleRoot: Hash,
                                     timestamp: uint32, bits: uint32, nonce: uint32)

  datatype Block = Block(header: BlockHeader, vtx: seq<Transaction>)

  /** An unspent output. Heights are unbounded: no chain reaches 2^63 blocks. */
  datatype Coin = Coin(value: int64, scriptPubKey: seq<byte>, height: int, isCoinbase: bool) {
    predicate IsSpendable(currentHeight: int) {
      !(isCoinbase && currentHeight - height < COINBASE_MATURITY)
    }
  }

  type View = map<OutPoint, Coin>

  /** The network parameters the consensus code reads. */
  datatype Params = Params(genesisHash: Option<Hash>, genesisNonce: uint32, networkMagic: uint32,
                           targetBlockTime: int64, difficultyInterval: int64, maxAdjustment: int64,
                           powNoRetarget: bool, minDifficultyBits: uint32)

  /** Foreign code: double SHA-256 (as the number the node reads from the digest)
      and the script interpreter. Every theorem holds for all such functions.
   */
  datatype Crypto = Crypto(sha256d: seq<byte> -> Hash,
                           verifyScript: (seq<byte>, seq<byte>, Hash) -> bool)
}
