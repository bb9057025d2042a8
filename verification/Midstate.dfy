/** The genesis miner: SHA-256 padding and block order around an arbitrary compression
    function, the precomputed first block, and the word-wise target test.
 */
module Midstate {
  import opened Types
  import opened Bytes
  import opened Positional
  import opened WireFormat
  import Arith
  import Compact

  /** Eight 32-bit words. */
  type Chaining = h: seq<uint32> | |h| == 8 witness [0, 0, 0, 0, 0, 0, 0, 0]

  type Compress = (Chaining, seq<byte>) -> Chaining

  const IV: Chaining :=
    [0x6a09e667, 0xbb67ae85, 0x3c6ef372, 0xa54ff53a, 0x510e527f, 0x9b05688c, 0x1f83d9ab, 0x5be0cd19]

  /** Section 5.3.3 of FIPS 180-4: the first 32 bits of the fractional parts of the square
      roots of the first eight primes. */
  lemma InitialValues(i: nat)
    requires i < 8
    ensures var prime: nat, whole: nat := [2, 3, 5, 7, 11, 13, 17, 19][i], [1, 1, 2, 2, 3, 3, 4, 4][i];
            var root: nat := whole * 0x1_0000_0000 + IV[i];
            root * root <= prime * 0x1_0000_0000_0000_0000 < (root + 1) * (root + 1)
  {
    assert i == 0 || i == 1 || i == 2 || i == 3 || i == 4 || i == 5 || i == 6 || i == 7;
  }

  // ------------------------------------------------------------ FIPS 180-4

  /** The low k bytes of n, most significant first. */
  function BE(n: nat, k: nat): (b: seq<byte>)
    ensures |b| == k
  {
    if k == 0 then [] else BE(n / 256, k - 1) + [n % 256]
  }

  /** Zero bytes between the end marker and the length. */
  function Gap(n: nat): nat {
    (119 - n % 64) % 64
  }

  /** Section 5.1.1: a one bit, the fewest zeros, the length in bits. */
  function Padding(n: nat): (p: seq<byte>)
    ensures |p| == 9 + Gap(n)
  {
    [0x80] + (ZeroBytes(Gap(n)) + BE(8 * n % TWO_64, 8))
  }

  /** Its bytes: the end marker, zeros, and the length in bits, most significant byte first. */
  lemma PaddingBytes(n: nat, i: nat)
    requires i < |Padding(n)|
    ensures Padding(n)[i]
         == if i == 0 then 0x80 else if i <= Gap(n) then 0
            else 8 * n % 0x1_0000_0000_0000_0000 / Pow256(|Padding(n)| - 1 - i) % 256
  {
    hide BE, Pow256;
    if i > Gap(n) {
      BEAt(8 * n % TWO_64, 8, i - 1 - Gap(n));
    }
  }

  lemma {:induction false} BEAt(n: nat, k: nat, i: nat)
    requires i < k
    ensures BE(n, k)[i] == n / Pow256(k - 1 - i) % 256
    decreases k
  {
    if i == k - 1 {
      assert Pow256(0) == 1;
    } else {
      BEAt(n / 256, k - 1, i);
      Arith.DivDiv(n, 256, Pow256(k - 2 - i));
    }
  }

  lemma PaddingIsMinimal(n: nat, k: nat)
    ensures (n + |Padding(n)|) % 64 == 0
    ensures k < Gap(n) ==> (n + 9 + k) % 64 != 0
  {
    hide Padding;
    var q, r := n / 64, n % 64;
    assert n == 64 * q + r;
    Mod64(q, r + 9 + Gap(n));
    Mod64(q, r + 9 + k);
    if r <= 55 {
      assert Gap(n) == 55 - r;
    } else {
      assert Gap(n) == 119 - r;
    }
  }

  lemma Mod64(q: nat, x: nat)
    ensures (64 * q + x) % 64 == x % 64
  {
    Arith.DivUnique(64 * q + x, 64, q + x / 64, x % 64);
  }

  /** The compression function over consecutive 64-byte blocks. */
  function Fold(f: Compress, h: Chaining, blocks: seq<byte>): Chaining
    requires |blocks| % 64 == 0
  {
    if |blocks| == 0 then h
    else f(Fold(f, h, blocks[..|blocks| - 64]), blocks[|blocks| - 64..])
  }

  function WordBytes(ws: seq<uint32>): (b: seq<byte>)
    ensures |b| == 4 * |ws|
  {
    if ws == [] then [] else WordBytes(ws[..|ws| - 1]) + BE(ws[|ws| - 1], 4)
  }

  function Sha256(f: Compress, data: seq<byte>): (digest: seq<byte>)
    ensures |digest| == 32
  {
    PaddingIsMinimal(|data|, 0);
    WordBytes(Fold(f, IV, data + Padding(|data|)))
  }

  function Sha256d(f: Compress, data: seq<byte>): (digest: seq<byte>)
    ensures |digest| == 32
  {
    Sha256(f, Sha256(f, data))
  }

  /** A digest holds its words in order, most significant byte first. */
  lemma {:induction false} WordBytesAt(ws: seq<uint32>, i: nat)
    requires i < |ws|
    ensures var b, w := WordBytes(ws), ws[i];
            b[4 * i..4 * i + 4] == [w / 0x100_0000, w / 0x1_0000 % 256, w / 0x100 % 256, w % 256]
    decreases |ws|
  {
    hide BE;
    FourBytes(ws[i]);
    if i < |ws| - 1 {
      var init := ws[..|ws| - 1];
      WordBytesAt(init, i);
      assert WordBytes(ws)[4 * i..4 * i + 4] == WordBytes(init)[4 * i..4 * i + 4];
    }
  }

  lemma FoldSnoc(f: Compress, h: Chaining, blocks: seq<byte>, block: seq<byte>)
    requires |blocks| % 64 == 0 && |block| == 64
    ensures Fold(f, h, blocks + block) == f(Fold(f, h, blocks), block)
  {
    var all := blocks + block;
    assert all[..|all| - 64] == blocks && all[|all| - 64..] == block;
  }

  // ------------------------------------------------------------ sha256_full

  method Sha256Full(f: Compress, data: seq<byte>) returns (out: seq<byte>)
    ensures out == Sha256(f, data)
  {
    hide Fold, Padding, BE, WordBytes, Gap;
    var h := IV;
    var off := 0;
    assert Fold(f, IV, data[..0]) == IV by { FoldNone(f, data[..0]); }
    while |data| - off >= 64
      invariant 0 <= off <= |data| && off % 64 == 0 && h == Fold(f, IV, data[..off])
      decreases |data| - off
    {
      assert data[..off + 64] == data[..off] + data[off..off + 64];
      FoldSnoc(f, IV, data[..off], data[off..off + 64]);
      h := f(h, data[off..off + 64]);
      off := off + 64;
    }
    var tail := PadTail(data, off);
    assert data + Padding(|data|) == data[..off] + tail;
    PaddingIsMinimal(|data|, 0);
    h := CompressTail(f, data[..off], h, tail);
    out := WriteWords(h);
  }

  method CompressTail(f: Compress, ghost done: seq<byte>, start: Chaining, tail: seq<byte>) returns (h: Chaining)
    requires |done| % 64 == 0 && |tail| % 64 == 0 && start == Fold(f, IV, done)
    ensures (|done| + |tail|) % 64 == 0 && h == Fold(f, IV, done + tail)
  {
    hide Fold;
    h := start;
    var i := 0;
    assert done + tail[..0] == done;
    while i < |tail|
      invariant 0 <= i <= |tail| && i % 64 == 0 && h == Fold(f, IV, done + tail[..i])
      decreases |tail| - i
    {
      assert done + tail[..i + 64] == done + tail[..i] + tail[i..i + 64];
      FoldSnoc(f, IV, done + tail[..i], tail[i..i + 64]);
      h := f(h, tail[i..i + 64]);
      i := i + 64;
    }
    assert tail[..|tail|] == tail;
  }

  lemma FoldNone(f: Compress, b: seq<byte>)
    requires b == []
    ensures Fold(f, IV, b) == IV
  {
  }

  /** The last partial block, padded in a 128-byte buffer of which one or two blocks count. */
  method PadTail(data: seq<byte>, off: nat) returns (tail: seq<byte>)
    requires off <= |data| < off + 64 && off % 64 == 0
    ensures tail == data[off..] + Padding(|data|) && |tail| % 64 == 0
  {
    hide BE;
    var rem := |data| - off;
    var buf := new byte[128](i => 0);
    for i := 0 to rem
      invariant forall k :: 0 <= k < 128 ==> buf[k] == if k < i then data[off + k] else 0
    {
      buf[i] := data[off + i];
    }
    buf[rem] := 0x80;
    var bits := BE(8 * |data| % TWO_64, 8);
    var padlen := if rem + 1 <= 56 then 64 else 128;
    for i := 0 to 8
      invariant forall k :: 0 <= k < 128 ==>
        buf[k] == if k < rem then data[off + k] else if k == rem then 0x80
                  else if padlen - 8 <= k < padlen - 8 + i then bits[k - (padlen - 8)] else 0
    {
      buf[padlen - 8 + i] := bits[i];
    }
    TailGap(|data|, off);
    tail := buf[..padlen];
    assert tail == data[off..] + ([0x80] + (ZeroBytes(padlen - 9 - rem) + bits));
  }

  lemma TailGap(n: nat, off: nat)
    requires off <= n < off + 64 && off % 64 == 0
    ensures var rem := n - off;
            Gap(n) == (if rem + 1 <= 56 then 64 else 128) - 9 - rem
  {
    assert n % 64 == n - off;
  }

  method WriteWords(h: seq<uint32>) returns (out: seq<byte>)
    ensures out == WordBytes(h)
  {
    out := [];
    for i := 0 to |h|
      invariant out == WordBytes(h[..i])
    {
      assert h[..i + 1][..i] == h[..i];
      FourBytes(h[i]);
      out := out + [h[i] / 0x100_0000, h[i] / 0x1_0000 % 256, h[i] / 0x100 % 256, h[i] % 256];
    }
    assert h[..|h|] == h;
  }

  lemma FourBytes(w: uint32)
    ensures BE(w, 4) == [w / 0x100_0000, w / 0x1_0000 % 256, w / 0x100 % 256, w % 256]
  {
    assert BE(w / 256 / 256 / 256 / 256, 0) == [];
    assert w / 256 / 256 == w / 0x1_0000 && w / 256 / 256 / 256 == w / 0x100_0000;
    assert BE(w, 4) == BE(w / 256, 3) + [w % 256];
    assert BE(w / 256, 3) == BE(w / 256 / 256, 2) + [w / 256 % 256];
    assert BE(w / 256 / 256, 2) == BE(w / 256 / 256 / 256, 1) + [w / 256 / 256 % 256];
  }

  // ------------------------------------------------------------ the precomputed path

  /** An 80-byte header is two blocks: the first is fixed, the second holds the nonce. */
  lemma HeaderInTwoBlocks(f: Compress, hdr: seq<byte>)
    requires |hdr| == 80
    ensures |Padding(80)| == 48
    ensures Sha256(f, hdr) == WordBytes(f(f(IV, hdr[..64]), hdr[64..] + Padding(80)))
  {
    hide Padding, Fold, WordBytes;
    var all, second := hdr + Padding(80), hdr[64..] + Padding(80);
    assert all == [] + hdr[..64] + second;
    FoldNone(f, []);
    FoldSnoc(f, IV, [], hdr[..64]);
    FoldSnoc(f, IV, [] + hdr[..64], second);
  }

  /** A digest is one block. */
  lemma DigestInOneBlock(f: Compress, digest: seq<byte>)
    requires |digest| == 32
    ensures |Padding(32)| == 32
    ensures Sha256(f, digest) == WordBytes(f(IV, digest + Padding(32)))
  {
    hide Padding, Fold, WordBytes;
    FoldNone(f, []);
    FoldSnoc(f, IV, [], digest + Padding(32));
    assert [] + (digest + Padding(32)) == digest + Padding(32);
  }

  /** The double hash of a header is three compressions. */
  lemma HeaderInThreeCompressions(f: Compress, hdr: seq<byte>)
    requires |hdr| == 80
    ensures |Padding(80)| == 48 && |Padding(32)| == 32
    ensures var first := WordBytes(f(f(IV, hdr[..64]), hdr[64..] + Padding(80)));
            Sha256d(f, hdr) == WordBytes(f(IV, first + Padding(32)))
  {
    hide Padding, WordBytes, Sha256;
    HeaderInTwoBlocks(f, hdr);
    DigestInOneBlock(f, Sha256(f, hdr));
  }

  class MiningState {
    const f: Compress
    var hState: Chaining
    const block2: array<byte>
    var hResult: Chaining
    const outPad: array<byte>
    ghost var prefix: seq<byte>

    ghost predicate Valid()
      reads this, block2, outPad
    {
      && block2.Length == 64 && outPad.Length == 64 && block2 != outPad && |prefix| == 76
      && hState == f(IV, prefix[..64]) && hResult == IV
      && block2[..12] == prefix[64..] && block2[16..] == Padding(80)
      && outPad[32..] == Padding(32)
    }

    /** prepare. */
    constructor (f: Compress, hdr: seq<byte>)
      requires |hdr| == 80
      ensures Valid() && this.f == f && prefix == hdr[..76] && fresh(block2) && fresh(outPad)
    {
      this.f := f;
      hState := f(IV, hdr[..64]);
      hResult := IV;
      block2, outPad := new byte[64](i => 0), new byte[64](i => 0);
      prefix := hdr[..76];
      new;
      hide Padding;
      FillTail(block2, 80, 16);
      Copy(block2, hdr[64..]);
      assert prefix[..64] == hdr[..64];
      assert block2[..12] == prefix[64..] && block2[16..] == Padding(80);
      FillTail(outPad, 32, 32);
    }

    static method FillTail(block: array<byte>, n: nat, from: nat)
      requires block.Length == 64 && from + |Padding(n)| == 64
      modifies block
      ensures block[from..] == Padding(n)
    {
      hide BE;
      var bits := BE(8 * n % TWO_64, 8);
      for i := 0 to 64
        invariant forall k :: 0 <= k < i ==> block[k] == 0
      {
        block[i] := 0;
      }
      block[from] := 0x80;
      for i := 0 to 8
        invariant forall k :: 0 <= k < 64 ==>
          block[k] == if k == from then 0x80 else if 64 - i <= k then bits[k - 56] else 0
      {
        block[63 - i] := bits[7 - i];
      }
      assert block[from..] == [0x80] + (ZeroBytes(Gap(n)) + bits);
    }

    /** mine_hash: whatever nonces were hashed before on this state, the result is the
        double hash of the header with this nonce, and the state is ready for the next. */
    method MineHash(nonce: uint32) returns (out: seq<byte>)
      requires Valid()
      modifies block2, outPad
      ensures Valid() && out == Sha256d(f, prefix + LE(nonce, 4))
    {
      hide Padding, WordBytes, LE, Sha256;
      ghost var hdr := prefix + LE(nonce, 4);
      PutNonce(block2, nonce);
      assert hdr[..64] == prefix[..64];
      assert block2[..] == hdr[64..] + Padding(80);
      assert block2[..12] == prefix[64..] && block2[16..] == Padding(80);
      HeaderInTwoBlocks(f, hdr);
      var h := f(hState, block2[..]);
      var first := WriteWords(h);
      DigestInOneBlock(f, first);
      Copy(outPad, first);
      assert outPad[32..] == Padding(32);
      var h2 := f(hResult, outPad[..]);
      out := WriteWords(h2);
    }

    static method PutNonce(block: array<byte>, nonce: uint32)
      requires block.Length == 64
      modifies block
      ensures block[..] == old(block[..12]) + LE(nonce, 4) + old(block[16..])
    {
      hide LE;
      var b := LE(nonce, 4);
      block[12], block[13], block[14], block[15] := b[0], b[1], b[2], b[3];
    }

    /** Overwrites the front of a block. */
    static method Copy(block: array<byte>, bytes: seq<byte>)
      requires |bytes| <= block.Length
      modifies block
      ensures block[..] == bytes + old(block[|bytes|..])
    {
      ghost var rest := block[|bytes|..];
      for i := 0 to |bytes|
        invariant block[..i] == bytes[..i] && block[|bytes|..] == rest
      {
        block[i] := bytes[i];
      }
    }

    /** Any sequence of nonces on one state. */
    method HashAll(nonces: seq<uint32>) returns (outs: seq<seq<byte>>)
      requires Valid()
      modifies block2, outPad
      ensures Valid() && |outs| == |nonces|
      ensures forall i :: 0 <= i < |nonces| ==> outs[i] == Sha256d(f, prefix + LE(nonces[i], 4))
    {
      hide Sha256d, LE;
      outs := [];
      for i := 0 to |nonces|
        invariant Valid() && |outs| == i
        invariant forall k :: 0 <= k < i ==> outs[k] == Sha256d(f, prefix + LE(nonces[k], 4))
      {
        var out := MineHash(nonces[i]);
        outs := outs + [out];
      }
    }
  }

  /** With a node whose double hash is this one, the miner's digest of a serialized header
      is the node's hash of that header with the nonce put in. */
  lemma MinerHashesHeader(c: Crypto, f: Compress, hdr: BlockHeader, nonce: uint32)
    requires forall x :: c.sha256d(x) == FromLE(Sha256d(f, x))
    ensures FromLE(Sha256d(f, SerHeader(hdr)[..76] + LE(nonce, 4))) == HeaderHash(c, hdr.(nonce := nonce))
  {
    hide Sha256d, FromLE, LE;
    assert SerHeader(hdr)[..76] + LE(nonce, 4) == SerHeader(hdr.(nonce := nonce));
  }

  // ------------------------------------------------------------ the target test

  /** Four bytes, most significant first. */
  function Word(a: byte, b: byte, c: byte, d: byte): (w: uint32)
    ensures w == ((a * 256 + b) * 256 + c) * 256 + d
  {
    a * 0x100_0000 + b * 0x1_0000 + c * 0x100 + d
  }

  /** Word i of a digest read as a little-endian number, from the top. */
  function HashWord(hash: seq<byte>, i: nat): uint32
    requires |hash| == 32 && i < 8
  {
    Pow256Values();
    FromLE(hash[28 - 4 * i..32 - 4 * i])
  }

  function HashWords(hash: seq<byte>): (ws: seq<nat>)
    requires |hash| == 32
    ensures |ws| == 8
  {
    seq(8, i requires 0 <= i < 8 => HashWord(hash, i))
  }

  lemma {:induction false} FromLESplit(a: seq<byte>, b: seq<byte>)
    ensures FromLE(a + b) == FromLE(a) + Pow256(|a|) * FromLE(b)
  {
    if a == [] {
      assert a + b == b;
    } else {
      FromLESplit(a[1..], b);
      assert (a + b)[1..] == a[1..] + b;
      Scale(Pow256(|a| - 1), FromLE(b));
    }
  }

  lemma Scale(p: nat, v: nat)
    ensures 256 * (p * v) == 256 * p * v
  {
  }

  lemma {:induction false} HashValue(hash: seq<byte>, k: nat)
    requires |hash| == 32 && k <= 8
    ensures Value(HashWords(hash)[..k], TWO_32) == FromLE(hash[32 - 4 * k..])
  {
    hide FromLE, Value;
    if k == 0 {
      NoDigits(TWO_32);
      assert hash[32..] == [] && HashWords(hash)[..0] == [];
      NoBytes();
    } else {
      HashValue(hash, k - 1);
      var ws := HashWords(hash);
      assert ws[..k] == ws[..k - 1] + [ws[k - 1]];
      ValueSnoc(ws[..k - 1], ws[k - 1], TWO_32);
      var low, high := hash[32 - 4 * k..36 - 4 * k], hash[36 - 4 * k..];
      assert hash[32 - 4 * k..] == low + high;
      FromLESplit(low, high);
      Pow256Values();
      assert 28 - 4 * (k - 1) == 32 - 4 * k;
    }
  }

  lemma NoBytes()
    ensures FromLE([]) == 0
  {
  }

  /** Digit strings of equal length are ordered by their first difference. */
  lemma {:induction false} FirstDifference(a: seq<nat>, b: seq<nat>, i: nat, base: nat)
    requires |a| == |b| && Below(a, base) && Below(b, base) && i < |a| && a[..i] == b[..i] && a[i] < b[i]
    ensures Value(a, base) < Value(b, base)
  {
    hide Value;
    var n := |a| - 1;
    assert a == a[..n] + [a[n]] && b == b[..n] + [b[n]];
    ValueSnoc(a[..n], a[n], base);
    ValueSnoc(b[..n], b[n], base);
    if i < n {
      assert a[..n][..i] == a[..i] && b[..n][..i] == b[..i];
      FirstDifference(a[..n], b[..n], i, base);
      NextDigit(Value(a[..n], base), Value(b[..n], base), a[n], b[n], base);
    }
  }

  lemma NextDigit(x: nat, y: nat, d: nat, e: nat, base: nat)
    requires x < y && d < base
    ensures x * base + d < y * base + e
  {
    Arith.MulMono(base, x + 1, y);
  }

  /** hash_le_target: the word loop decides the order of the numbers. */
  method HashLeTarget(hash: seq<byte>, target: seq<uint32>) returns (r: bool)
    requires |hash| == 32 && |target| == 8
    ensures r == (FromLE(hash) <= Value(target, TWO_32))
  {
    hide Value, FromLE;
    ghost var ws := HashWords(hash);
    HashValue(hash, 8);
    assert ws[..8] == ws && hash[0..] == hash;
    for i := 0 to 8
      invariant forall k :: 0 <= k < i ==> ws[k] == target[k]
    {
      var b := 31 - 4 * i;
      var hw := Word(hash[b], hash[b - 1], hash[b - 2], hash[b - 3]);
      ReadWord(hash, i);
      assert ws[..i] == target[..i];
      if hw < target[i] {
        FirstDifference(ws, target, i, TWO_32);
        return true;
      }
      if hw > target[i] {
        FirstDifference(target, ws, i, TWO_32);
        return false;
      }
    }
    assert ws == target;
    r := true;
  }

  lemma ReadWord(hash: seq<byte>, i: nat)
    requires |hash| == 32 && i < 8
    ensures var b := 31 - 4 * i;
            HashWord(hash, i) == Word(hash[b], hash[b - 1], hash[b - 2], hash[b - 3])
  {
    var w := hash[28 - 4 * i..32 - 4 * i];
    assert w == [w[0], w[1], w[2], w[3]];
    assert FromLE(w) == w[0] + 256 * FromLE(w[1..]);
    assert FromLE(w[1..]) == w[1] + 256 * FromLE(w[1..][1..]);
    assert w[1..][1..] == w[2..] && w[2..][1..] == w[3..] && w[3..][1..] == [];
    assert FromLE(w[2..]) == w[2] + 256 * FromLE(w[3..]);
    assert FromLE(w[3..]) == w[3];
  }

  /** The bytes of the target, for an exponent above 3. */
  function TargetBytes(bits: uint32): (t: seq<byte>)
    requires 4 <= bits / 0x100_0000 <= 32
    ensures |t| == 32
  {
    var exp, mant := bits / 0x100_0000, bits % 0x80_0000;
    ZeroBytes(32 - exp) + ([mant / 0x1_0000, mant / 0x100 % 256, mant % 256] + ZeroBytes(exp - 3))
  }

  function BytesWord(t: seq<byte>, i: nat): uint32
    requires |t| == 32 && i < 8
  {
    Word(t[4 * i], t[4 * i + 1], t[4 * i + 2], t[4 * i + 3])
  }

  /** target_from_bits: eight words, most significant first. Exponents above 32 write
      outside the buffer. */
  function TargetWords(bits: uint32): (ws: seq<uint32>)
    requires bits / 0x100_0000 <= 32
    ensures |ws| == 8
  {
    var exp, mant := bits / 0x100_0000, bits % 0x80_0000;
    if exp <= 3 then [Arith.Quotient(mant, Pow256(3 - exp))] + [0, 0, 0, 0, 0, 0, 0]
    else seq(8, i requires 0 <= i < 8 => BytesWord(TargetBytes(bits), i))
  }

  lemma {:induction false} WordsOfBytes(t: seq<byte>, ws: seq<uint32>, k: nat)
    requires |t| == 32 && |ws| == 8 && k <= 8 && forall i :: 0 <= i < 8 ==> ws[i] == BytesWord(t, i)
    ensures Value(ws[..k], TWO_32) == Value(t[..4 * k], 256)
  {
    hide Value, Word;
    if k == 0 {
      NoDigits(TWO_32);
      NoDigits(256);
      assert ws[..0] == [] && t[..0] == [];
    } else {
      WordsOfBytes(t, ws, k - 1);
      var j := 4 * (k - 1);
      assert ws[..k] == ws[..k - 1] + [ws[k - 1]];
      ValueSnoc(ws[..k - 1], ws[k - 1], TWO_32);
      FourDigits(t[..j], t[j], t[j + 1], t[j + 2], t[j + 3]);
      TakeFour(t, j);
      assert ws[k - 1] == BytesWord(t, k - 1);
    }
  }

  lemma TakeFour(t: seq<byte>, j: nat)
    requires j + 4 <= |t|
    ensures t[..j + 4] == t[..j] + [t[j]] + [t[j + 1]] + [t[j + 2]] + [t[j + 3]]
  {
  }

  lemma FourDigits(ds: seq<nat>, a: nat, b: nat, c: nat, d: nat)
    ensures Value(ds + [a] + [b] + [c] + [d], 256)
         == Value(ds, 256) * TWO_32 + (((a * 256 + b) * 256 + c) * 256 + d)
  {
    hide Value;
    ValueSnoc(ds, a, 256);
    ValueSnoc(ds + [a], b, 256);
    ValueSnoc(ds + [a] + [b], c, 256);
    ValueSnoc(ds + [a] + [b] + [c], d, 256);
  }

  lemma ScaleUp(v: nat, p: nat)
    ensures v * p * 256 == v * (256 * p)
  {
  }

  lemma {:induction false} TrailingZeros(ds: seq<nat>, k: nat)
    ensures Value(ds + ZeroBytes(k), 256) == Value(ds, 256) * Pow256(k)
  {
    hide Value;
    if k == 0 {
      assert ds + ZeroBytes(0) == ds;
    } else {
      TrailingZeros(ds, k - 1);
      assert ds + ZeroBytes(k) == ds + ZeroBytes(k - 1) + [0];
      ValueSnoc(ds + ZeroBytes(k - 1), 0, 256);
      ScaleUp(Value(ds, 256), Pow256(k - 1));
    }
  }

  /** The tool's target: the mantissa scaled by the exponent, as the compact format says,
      above exponent 3; up to 3, the mantissa in the most significant word. */
  lemma TargetValue(bits: uint32)
    requires bits / 0x100_0000 <= 32
    ensures var exp, mant := bits / 0x100_0000, bits % 0x80_0000;
            Value(TargetWords(bits), TWO_32)
            == if exp <= 3 then mant / Pow256(3 - exp) * Pow256(28) else mant * Pow256(exp - 3)
  {
    hide Value, Pow256;
    var exp, mant, ws := bits / 0x100_0000, bits % 0x80_0000, TargetWords(bits);
    if exp <= 3 {
      TopWord(ws[0]);
      assert ws == [ws[0], 0, 0, 0, 0, 0, 0, 0];
    } else {
      var t := TargetBytes(bits);
      WordsOfBytes(t, ws, 8);
      assert ws[..8] == ws && t[..32] == t;
      var m := [mant / 0x1_0000, mant / 0x100 % 256, mant % 256];
      assert t == ZeroBytes(32 - exp) + (m + ZeroBytes(exp - 3));
      LeadingZeros(32 - exp, m + ZeroBytes(exp - 3), 256);
      TrailingZeros(m, exp - 3);
      ThreeDigits(mant);
    }
  }

  lemma ThreeDigits(mant: nat)
    requires mant < 0x80_0000
    ensures Value([mant / 0x1_0000, mant / 0x100 % 256, mant % 256], 256) == mant
  {
    hide Value;
    var a, b, c := mant / 0x1_0000, mant / 0x100 % 256, mant % 256;
    ValueSnoc([], a, 256);
    ValueSnoc([a], b, 256);
    ValueSnoc([a, b], c, 256);
    NoDigits(256);
    assert [] + [a] == [a] && [a] + [b] == [a, b] && [a, b] + [c] == [a, b, c];
  }

  lemma TopWord(w: uint32)
    ensures Value([w, 0, 0, 0, 0, 0, 0, 0], TWO_32) == w * Pow256(28)
  {
    WordsDown(w, 7);
    assert [w] + ZeroBytes(7) == [w, 0, 0, 0, 0, 0, 0, 0];
  }

  lemma {:induction false} WordsDown(w: nat, k: nat)
    ensures Value([w] + ZeroBytes(k), TWO_32) == w * Pow256(4 * k)
  {
    hide Value, Pow256;
    if k == 0 {
      ValueSnoc([], w, TWO_32);
      NoDigits(TWO_32);
      assert [w] + ZeroBytes(0) == [] + [w];
      PowZero();
    } else {
      WordsDown(w, k - 1);
      assert [w] + ZeroBytes(k) == [w] + ZeroBytes(k - 1) + [0];
      ValueSnoc([w] + ZeroBytes(k - 1), 0, TWO_32);
      Pow256Add(4, 4 * (k - 1));
      Pow256Values();
      Regroup(w, Pow256(4 * (k - 1)));
    }
  }

  lemma PowZero()
    ensures Pow256(0) == 1
  {
  }

  lemma Regroup(w: nat, p: nat)
    ensures w * p * TWO_32 == w * (TWO_32 * p)
  {
  }

  /** Which bits the tool and the node read as the same target. */
  predicate Faithful(bits: uint32) {
    bits / 0x100_0000 >= 4 && bits % 0x80_0000 != 0
  }

  /** The tool's test agrees with CheckProofOfWork on every hash if and only if the exponent
      is at least 4 and the mantissa is not zero. */
  lemma TargetTestAgrees(bits: uint32)
    requires bits / 0x100_0000 <= 32
    ensures (forall hash: Hash :: (hash <= Value(TargetWords(bits), TWO_32)) == Compact.CheckProofOfWork(hash, bits))
       <==> Faithful(bits)
  {
    hide Value, TargetWords, Compact.SetCompact;
    var t, node := Value(TargetWords(bits), TWO_32), Compact.SetCompact(bits);
    if Faithful(bits) {
      SameTarget(bits);
    } else {
      OtherTarget(bits);
      var odd: Hash := if node == 0 then 0 else node + 1;
      assert (odd <= t) != Compact.CheckProofOfWork(odd, bits);
    }
  }

  lemma SameTarget(bits: uint32)
    requires bits / 0x100_0000 <= 32 && Faithful(bits)
    ensures Value(TargetWords(bits), TWO_32) == Compact.SetCompact(bits) > 0
  {
    hide Value, TargetWords, Pow256;
    TargetValue(bits);
    var exp, mant := bits / 0x100_0000, bits % 0x80_0000;
    Pow256Values();
    MantissaFits(mant, exp);
  }

  lemma MantissaFits(mant: nat, exp: nat)
    requires 0 < mant < 0x80_0000 && 4 <= exp <= 32
    ensures 0 < mant * Pow256(exp - 3) < TWO_256
  {
    hide Pow256;
    Pow256Values();
    PowGrows(exp - 3, 29);
    Pow256Add(3, 29);
    assert Pow256(3) == 0x100_0000 by { PowThree(); }
    Product(mant, Pow256(exp - 3), Pow256(29));
  }

  lemma Product(m: nat, p: nat, q: nat)
    requires 0 < m < 0x80_0000 && 0 < p <= q
    ensures 0 < m * p < 0x100_0000 * q
  {
    Arith.MulMono(p, 1, m);
    Arith.MulMono(p, m, 0x100_0000 - 1);
    Arith.MulMono(0x100_0000 - 1, p, q);
  }

  /** Otherwise the node's target is zero, which it never accepts, or the tool's is larger. */
  lemma OtherTarget(bits: uint32)
    requires bits / 0x100_0000 <= 32 && !Faithful(bits)
    ensures var node := Compact.SetCompact(bits);
            node == 0 || (node + 1 <= Value(TargetWords(bits), TWO_32) && node + 1 < TWO_256)
  {
    hide Value, TargetWords, Pow256;
    TargetValue(bits);
    Pow256Values();
    var exp, mant := bits / 0x100_0000, bits % 0x80_0000;
    if exp <= 3 {
      var m := Arith.Quotient(mant, Pow256(3 - exp));
      BigTop(m);
    } else {
      ZeroShift(exp - 3);
    }
  }

  lemma BigTop(m: nat)
    ensures m > 0 ==> m + 1 <= m * Pow256(28)
  {
    hide Pow256;
    PowGrows(1, 28);
    assert Pow256(1) == 256 by { Pow256Values(); }
    Arith.MulMono(m, 256, Pow256(28));
  }

  lemma ZeroShift(e: nat)
    ensures Compact.Shifted(0, e) == 0
  {
  }
}
