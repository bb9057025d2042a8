/** Merkle roots: the level-by-level loop, the tree it computes, and what a root binds. */
module Merkle {
  import opened Arith
  import opened Types
  import opened Bytes
  import opened WireFormat

  function PairBytes(a: Hash, b: Hash): seq<byte> {
    LE(a, 32) + LE(b, 32)
  }

  function PairHash(c: Crypto, a: Hash, b: Hash): Hash {
    c.sha256d(PairBytes(a, b))
  }

  /** The i-th parent: the last hash of an odd level is paired with itself. */
  function Parent(c: Crypto, level: seq<Hash>, i: nat): Hash
    requires 2 * i < |level|
  {
    PairHash(c, level[2 * i], if 2 * i + 1 < |level| then level[2 * i + 1] else level[2 * i])
  }

  function LevelUp(c: Crypto, level: seq<Hash>): (next: seq<Hash>)
    ensures |next| == (|level| + 1) / 2
    ensures forall i :: 0 <= i < |next| ==> next[i] == Parent(c, level, i)
  {
    seq((|level| + 1) / 2, i requires 0 <= i < (|level| + 1) / 2 => Parent(c, level, i))
  }

  function Root(c: Crypto, level: seq<Hash>): Hash
    requires |level| > 0
    decreases |level|
  {
    if |level| == 1 then level[0] else Root(c, LevelUp(c, level))
  }

  /** The root the node computes; the empty list has root zero. */
  function MerkleRoot(c: Crypto, hashes: seq<Hash>): Hash {
    if hashes == [] then 0 else Root(c, hashes)
  }

  method ComputeMerkleRoot(c: Crypto, hashes: seq<Hash>) returns (r: Hash)
    ensures r == MerkleRoot(c, hashes)
    ensures r == if hashes == [] then 0 else Tree(c, hashes, Depth(|hashes|))
  {
    if hashes == [] {
      return 0;
    }
    RootIsTree(c, hashes);
    hide Tree, LE;
    var level := hashes;
    while |level| > 1
      invariant |level| > 0
      invariant Root(c, level) == Root(c, hashes)
      decreases |level|
    {
      var next := [];
      var i := 0;
      while i < |level|
        invariant i % 2 == 0 && 0 <= i <= |level| + 1
        invariant |next| == i / 2
        invariant forall k :: 0 <= k < |next| ==> next[k] == Parent(c, level, k)
      {
        var right := if i + 1 < |level| then level[i + 1] else level[i];
        next := next + [PairHash(c, level[i], right)];
        i := i + 2;
      }
      assert next == LevelUp(c, level);
      level := next;
    }
    r := level[0];
  }

  function TxIds(c: Crypto, txs: seq<Transaction>): (ids: seq<Hash>)
    ensures |ids| == |txs|
    ensures forall i :: 0 <= i < |txs| ==> ids[i] == TxId(c, txs[i])
  {
    seq(|txs|, i requires 0 <= i < |txs| => TxId(c, txs[i]))
  }

  predicate MerkleRootMatches(c: Crypto, b: Block) {
    MerkleRoot(c, TxIds(c, b.vtx)) == b.header.merkleRoot
  }

  // ------------------------------------------------------------ the tree

  /** A binary tree of depth d over the leaves, left subtree full; where no right
      subtree exists the left one is used twice. A node is the hash of the 32 little-endian
      bytes of its left child followed by those of its right child. */
  function Tree(c: Crypto, leaves: seq<Hash>, d: nat): Hash
    requires 1 <= |leaves| <= Pow2(d)
    decreases d
  {
    if d == 0 then leaves[0]
    else
      var half := Pow2(d - 1);
      var left := Tree(c, if |leaves| <= half then leaves else leaves[..half], d - 1);
      var right := if |leaves| <= half then left else Tree(c, leaves[half..], d - 1);
      c.sha256d(LE(left, 32) + LE(right, 32))
  }

  function Depth(n: nat): (d: nat)
    requires n > 0
    ensures n <= Pow2(d) && (n > 1 ==> Pow2(d) < 2 * n)
  {
    if n == 1 then 0 else 1 + Depth((n + 1) / 2)
  }

  lemma LevelUpSplit(c: Crypto, a: seq<Hash>, b: seq<Hash>)
    requires |a| % 2 == 0
    ensures LevelUp(c, a + b) == LevelUp(c, a) + LevelUp(c, b)
  {
    hide PairHash;
    var whole, parts := LevelUp(c, a + b), LevelUp(c, a) + LevelUp(c, b);
    assert |whole| == |parts|;
    forall i | 0 <= i < |whole|
      ensures whole[i] == parts[i]
    {
      if 2 * i < |a| {
        assert Parent(c, a + b, i) == Parent(c, a, i);
      } else {
        assert Parent(c, a + b, i) == Parent(c, b, i - |a| / 2);
      }
    }
  }

  lemma Leaf(c: Crypto, leaves: seq<Hash>)
    requires |leaves| == 1
    ensures Tree(c, leaves, 0) == leaves[0]
  {
  }

  lemma Node(c: Crypto, leaves: seq<Hash>, d: nat)
    requires 1 <= |leaves| <= Pow2(d) && d > 0
    ensures var half := Pow2(d - 1);
            Tree(c, leaves, d)
            == if |leaves| <= half then PairHash(c, Tree(c, leaves, d - 1), Tree(c, leaves, d - 1))
               else PairHash(c, Tree(c, leaves[..half], d - 1), Tree(c, leaves[half..], d - 1))
  {
    hide LE;
  }

  /** One loop iteration removes the bottom level of the tree. */
  lemma {:induction false} TreeLevelUp(c: Crypto, leaves: seq<Hash>, d: nat)
    requires 1 <= |leaves| <= Pow2(d + 1)
    ensures Tree(c, leaves, d + 1) == Tree(c, LevelUp(c, leaves), d)
  {
    hide PairHash, Tree;
    var up := LevelUp(c, leaves);
    Node(c, leaves, d + 1);
    if d == 0 {
      assert Pow2(0) == 1 && Pow2(1) == 2;
      assert up[0] == Parent(c, leaves, 0);
      Leaf(c, up);
      Leaf(c, leaves[..1]);
      if |leaves| > 1 {
        Leaf(c, leaves[1..]);
      } else {
        Leaf(c, leaves);
      }
    } else {
      var half := Pow2(d);
      assert half == 2 * Pow2(d - 1);
      Node(c, up, d);
      if |leaves| <= half {
        TreeLevelUp(c, leaves, d - 1);
      } else {
        var a, b := leaves[..half], leaves[half..];
        TreeLevelUp(c, a, d - 1);
        TreeLevelUp(c, b, d - 1);
        assert leaves == a + b;
        LevelUpSplit(c, a, b);
        assert up[..half / 2] == LevelUp(c, a) && up[half / 2..] == LevelUp(c, b);
      }
    }
  }

  /** The loop computes the tree of least depth. */
  lemma {:induction false} RootIsTree(c: Crypto, leaves: seq<Hash>)
    requires |leaves| > 0
    ensures Root(c, leaves) == Tree(c, leaves, Depth(|leaves|))
    decreases |leaves|
  {
    hide PairHash, LE;
    if |leaves| > 1 {
      RootIsTree(c, LevelUp(c, leaves));
      TreeLevelUp(c, leaves, Depth(|leaves|) - 1);
    }
  }

  // ------------------------------------------------------------ what a root binds

  ghost predicate Collision(c: Crypto, x: seq<byte>, y: seq<byte>) {
    x != y && c.sha256d(x) == c.sha256d(y)
  }

  lemma PairBytesInjective(a: Hash, b: Hash, a': Hash, b': Hash)
    requires PairBytes(a, b) == PairBytes(a', b')
    ensures a == a' && b == b'
  {
    hide LE;
    Pow256Values();
    assert PairBytes(a, b)[..32] == LE(a, 32) && PairBytes(a', b')[..32] == LE(a', 32);
    assert PairBytes(a, b)[32..] == LE(b, 32) && PairBytes(a', b')[32..] == LE(b', 32);
    ReadWrite(a, 32);
    ReadWrite(a', 32);
    ReadWrite(b, 32);
    ReadWrite(b', 32);
  }

  /** Two different levels of equal length with the same parents exhibit a collision. */
  lemma LevelBinding(c: Crypto, a: seq<Hash>, b: seq<Hash>) returns (x: seq<byte>, y: seq<byte>)
    requires |a| == |b| && LevelUp(c, a) == LevelUp(c, b) && a != b
    ensures Collision(c, x, y)
  {
    hide PairBytes;
    var k :| 0 <= k < |a| && a[k] != b[k];
    var i := k / 2;
    assert LevelUp(c, a)[i] == Parent(c, a, i) && LevelUp(c, b)[i] == Parent(c, b, i);
    var ra := if 2 * i + 1 < |a| then a[2 * i + 1] else a[2 * i];
    var rb := if 2 * i + 1 < |b| then b[2 * i + 1] else b[2 * i];
    x, y := PairBytes(a[2 * i], ra), PairBytes(b[2 * i], rb);
    if x == y {
      PairBytesInjective(a[2 * i], ra, b[2 * i], rb);
    }
  }

  /** Merkle binding: two different leaf lists of equal length with the same root
      exhibit a collision of double SHA-256. */
  lemma {:induction false} RootBinding(c: Crypto, a: seq<Hash>, b: seq<Hash>) returns (x: seq<byte>, y: seq<byte>)
    requires |a| == |b| && MerkleRoot(c, a) == MerkleRoot(c, b) && a != b
    ensures Collision(c, x, y)
    decreases |a|
  {
    hide Collision, PairHash, Parent;
    if LevelUp(c, a) == LevelUp(c, b) {
      x, y := LevelBinding(c, a, b);
    } else {
      x, y := RootBinding(c, LevelUp(c, a), LevelUp(c, b));
    }
  }

  /** Equal length is needed: repeating the last leaf of an odd list keeps the root. */
  lemma RepeatedLeafKeepsRoot(c: Crypto, a: seq<Hash>)
    requires |a| > 1 && |a| % 2 == 1
    ensures MerkleRoot(c, a + [a[|a| - 1]]) == MerkleRoot(c, a)
  {
    hide PairHash;
    var b := a + [a[|a| - 1]];
    assert LevelUp(c, b) == LevelUp(c, a) by {
      forall i | 0 <= i < (|a| + 1) / 2
        ensures Parent(c, b, i) == Parent(c, a, i)
      {
      }
    }
  }

  /** A block hash commits to the whole block: two different blocks with the same hash,
      both consistent with their Merkle root and with equally many transactions,
      exhibit a collision of double SHA-256. */
  lemma BlockHashBinding(c: Crypto, a: Block, b: Block) returns (x: seq<byte>, y: seq<byte>)
    requires BlockFits(a) && BlockFits(b)
    requires MerkleRootMatches(c, a) && MerkleRootMatches(c, b) && |a.vtx| == |b.vtx|
    requires HeaderHash(c, a.header) == HeaderHash(c, b.header) && a != b
    ensures Collision(c, x, y)
  {
    hide SerTx, SerHeader, TxFits, WithinCounts, MerkleRoot;
    x, y := SerHeader(a.header), SerHeader(b.header);
    if x == y {
      HeaderRoundTrip(a.header, []);
      HeaderRoundTrip(b.header, []);
      var k :| 0 <= k < |a.vtx| && a.vtx[k] != b.vtx[k];
      x, y := SerTx(a.vtx[k]), SerTx(b.vtx[k]);
      if x == y {
        SerTxInjective(a.vtx[k], b.vtx[k]);
      } else if c.sha256d(x) != c.sha256d(y) {
        assert TxIds(c, a.vtx)[k] != TxIds(c, b.vtx)[k];
        x, y := RootBinding(c, TxIds(c, a.vtx), TxIds(c, b.vtx));
      }
    }
  }
}
