/** Little-endian numbers as byte strings, and two's complement. */
module Bytes {
  import opened Types
  import Arith

  function Pow256(k: nat): (p: nat)
    ensures p >= 1
  {
    if k == 0 then 1 else 256 * Pow256(k - 1)
  }

  /** The low k bytes of n, least significant first. */
  function LE(n: nat, k: nat): (b: seq<byte>)
    ensures |b| == k
  {
    if k == 0 then [] else [n % 256] + LE(n / 256, k - 1)
  }

  function FromLE(b: seq<byte>): (n: nat)
    ensures n < Pow256(|b|)
  {
    if b == [] then 0 else b[0] + 256 * FromLE(b[1..])
  }

  function ZeroBytes(n: nat): (z: seq<byte>)
    ensures |z| == n && forall i :: 0 <= i < n ==> z[i] == 0
  {
    seq(n, i => 0)
  }

  /** The first four bytes of the double hash: the checksum of a message and of an address. */
  function Checksum(c: Crypto, data: seq<byte>): (r: seq<byte>)
    ensures |r| == 4
  {
    LE(c.sha256d(data), 32)[..4]
  }

  lemma Pow256Values()
    ensures Pow256(1) == 256 && Pow256(2) == 0x1_0000 && Pow256(4) == TWO_32
    ensures Pow256(8) == TWO_64 && Pow256(32) == TWO_256
  {
    assert Pow256(2) == 0x1_0000;
    assert Pow256(4) == 0x1_0000_0000;
    assert Pow256(6) == 0x1_0000_0000_0000;
    assert Pow256(8) == TWO_64;
    Pow256Add(8, 8);
    Pow256Add(16, 16);
  }

  lemma NextPlace(k: nat)
    ensures Pow256(k + 1) == 256 * Pow256(k)
  {
  }

  lemma PowThree()
    ensures Pow256(3) == 0x100_0000
  {
  }

  lemma LowByte(n: nat)
    ensures LE(n, 4)[0] == n % 256
  {
  }

  lemma {:induction false} Pow256Add(a: nat, b: nat)
    ensures Pow256(a + b) == Pow256(a) * Pow256(b)
  {
    if a != 0 {
      Pow256Add(a - 1, b);
      calc {
        Pow256(a + b);
        256 * Pow256(a - 1 + b);
        256 * (Pow256(a - 1) * Pow256(b));
        (256 * Pow256(a - 1)) * Pow256(b);
      }
    }
  }

  /** Writing then reading gives the number back, for every number that fits. */
  lemma {:induction false} ReadWrite(n: nat, k: nat)
    requires n < Pow256(k)
    ensures FromLE(LE(n, k)) == n
    decreases k
  {
    if k != 0 {
      assert n / 256 < Pow256(k - 1);
      ReadWrite(n / 256, k - 1);
      assert LE(n, k)[1..] == LE(n / 256, k - 1);
    }
  }

  /** Reading then writing gives the bytes back. */
  lemma {:induction false} WriteRead(b: seq<byte>)
    ensures LE(FromLE(b), |b|) == b
  {
    if b != [] {
      WriteRead(b[1..]);
      var n := FromLE(b);
      assert n == b[0] + 256 * FromLE(b[1..]);
      assert n % 256 == b[0] && n / 256 == FromLE(b[1..]);
      assert [b[0]] + b[1..] == b;
    }
  }

  /** Byte i counts the 256^i. */
  lemma {:induction false} LEAt(n: nat, k: nat, i: nat)
    requires i < k
    ensures LE(n, k)[i] == n / Pow256(i) % 256
    decreases k
  {
    if i > 0 {
      LEAt(n / 256, k - 1, i - 1);
      Arith.DivDiv(n, 256, Pow256(i - 1));
    }
  }

  lemma {:induction false} PowGrows(a: nat, b: nat)
    requires a <= b
    ensures Pow256(a) <= Pow256(b)
  {
    if a < b {
      PowGrows(a, b - 1);
    }
  }

  /** The last byte is the most significant. */
  lemma {:induction false} TopByte(b: seq<byte>)
    requires b != []
    ensures FromLE(b) == FromLE(b[..|b| - 1]) + b[|b| - 1] * Pow256(|b| - 1)
  {
    if |b| > 1 {
      var rest := b[1..];
      TopByte(rest);
      assert rest[..|rest| - 1] == b[..|b| - 1][1..];
      Shift(FromLE(rest[..|rest| - 1]), b[|b| - 1], Pow256(|rest| - 1));
    }
  }

  lemma Shift(low: nat, top: nat, p: nat)
    ensures 256 * (low + top * p) == 256 * low + top * (256 * p)
  {
  }

  lemma TopSnoc(b: seq<byte>, d: byte)
    ensures FromLE(b + [d]) == FromLE(b) + d * Pow256(|b|)
  {
    TopByte(b + [d]);
    assert (b + [d])[..|b|] == b;
  }

  function AsU64(v: int64): uint64 {
    if v < 0 then v + TWO_64 else v
  }

  function AsI64(v: uint64): int64 {
    if v < 0x8000_0000_0000_0000 then v else v - TWO_64
  }

  function AsU32(v: int32): uint32 {
    if v < 0 then v + TWO_32 else v
  }

  function AsI32(v: uint32): int32 {
    if v < 0x8000_0000 then v else v - TWO_32
  }
}
