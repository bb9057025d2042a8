/** Shift-and-subtract division of 256-bit words, chain work, and the compact format,
    built from the word operations.
 */
module Division {
  import opened Arith
  import opened Types
  import opened Bytes
  import opened Uint256
  import Compact

  /** One bit of long division: the dividend read so far doubles and gains a bit. */
  lemma DivBit(h: nat, q: nat, d: nat, rem: nat, bit: nat)
    requires h == q * d + rem
    ensures 2 * h + bit == (2 * q) * d + (2 * rem + bit)
    ensures 2 * h + bit == (2 * q + 1) * d + (2 * rem + bit - d)
  {
    assert (2 * q) * d == 2 * (q * d);
    assert (2 * q + 1) * d == 2 * (q * d) + d;
  }

  lemma NextBit(n: nat, k: nat)
    ensures Shr(n, k) == 2 * Shr(n, k + 1) + (if Bit(n, k) then 1 else 0)
  {
    hide Shr;
    ShrShr(n, k, 1);
    ShrNone(Shr(n, k));
  }

  /** The quotient so far has no bit at or below the next one, so setting it adds. */
  lemma ClearBit(q: nat, k: nat)
    ensures !Bit(q * Pow2(k + 1), k)
    ensures q * Pow2(k + 1) == (2 * q) * Pow2(k) && q * Pow2(k + 1) + Pow2(k) == (2 * q + 1) * Pow2(k)
  {
    Pow2Double(k);
    assert q * (2 * Pow2(k)) == Pow2(k) * (2 * q);
    ShrUnique(q * Pow2(k + 1), k, 2 * q, 0);
  }

  lemma ShrAll(v: Hash)
    ensures Shr(v, 256) == 0
  {
    hide Pow2;
    Pow2Of256();
    ShrUnique(v, 256, 0, v);
  }

  lemma Pow2Of256()
    ensures Pow2(256) == TWO_256 && Pow2(255) == TWO_256 / 2
  {
    WeightIsPow2(4);
    Weight4();
    Pow2Double(255);
  }

  lemma ValueIsZero(w: Words)
    ensures (forall i :: 0 <= i < 4 ==> w[i] == 0) <==> Value(w) == 0
  {
    if forall i :: 0 <= i < 4 ==> w[i] == 0 {
      LowZero(w, 4);
    } else {
      var i :| 0 <= i < 4 && w[i] != 0;
      LowPositive(w, i, 4);
    }
  }

  lemma {:induction false} LowPositive(w: Words, i: nat, n: nat)
    requires i < n <= 4 && w[i] != 0
    ensures Low(w, n) > 0
  {
    if i == n - 1 {
      MulMono(Weight(i), 1, w[i]);
    } else {
      LowPositive(w, i, n - 1);
    }
  }

  method IsZero(w: Words) returns (r: bool)
    ensures r == (Value(w) == 0)
  {
    hide Value;
    ValueIsZero(w);
    r := w[0] == 0 && w[1] == 0 && w[2] == 0 && w[3] == 0;
  }

  /** Doubling a remainder that stays within 256 bits loses nothing. */
  method Double(w: Words) returns (r: Words)
    ensures Value(r) == 2 * Value(w) % TWO_256
  {
    hide Value;
    assert Pow2(1) == 2;
    r := ShiftLeft(w, 1);
  }

  /** Division: the floor for every nonzero divisor. No bit of the remainder is ever
      lost, although the divisor may exceed 2^255. Division by zero gives zero. */
  method Div(a: Words, d: Words) returns (q: Words)
    ensures Value(q) == if Value(d) == 0 then 0 else Value(a) / Value(d)
  {
    hide Value, Pow2, Shr, Bit;
    ZeroValue();
    q := ZERO;
    var zero := IsZero(d);
    if zero { return; }
    var less := LessThan(a, d);
    if less {
      DivUnique(Value(a), Value(d), 0, Value(a));
      return;
    }
    ghost var n, dv, high := Value(a), Value(d), 0;
    ShrAll(n);
    var rem := ZERO;
    var bit := 256;
    while bit > 0
      invariant 0 <= bit <= 256
      invariant Value(rem) < dv && Shr(n, bit) == high * dv + Value(rem)
      invariant Value(q) == high * Pow2(bit)
    {
      bit := bit - 1;
      NextBit(n, bit);
      ClearBit(high, bit);
      RemainderFits(n, bit, high, dv, Value(rem));
      DivBit(Shr(n, bit + 1), high, dv, Value(rem), if Bit(n, bit) then 1 else 0);
      rem := Double(rem);
      var b := BitTest(a, bit);
      if b {
        EvenHasNoLowBit(Value(rem));
        rem := SetBit(rem, 0);
      }
      less := LessThan(rem, d);
      if less {
        high := 2 * high;
      } else {
        rem := Sub(rem, d);
        q := SetBit(q, bit);
        high := 2 * high + 1;
      }
    }
    ShrNone(n);
    assert Pow2(0) == 1 by { ShrNone(0); Pow2Zero(); }
    DivUnique(n, dv, high, Value(rem));
  }

  lemma Pow2Zero()
    ensures Pow2(0) == 1
  {
  }

  lemma EvenHasNoLowBit(v: nat)
    requires v % 2 == 0
    ensures !Bit(v, 0) && Pow2(0) == 1
  {
    ShrNone(v);
  }

  lemma RemainderFits(n: Hash, bit: nat, q: nat, d: nat, rem: nat)
    requires Shr(n, bit + 1) == q * d + rem
    ensures 2 * rem + 1 < TWO_256 && 2 * rem % TWO_256 == 2 * rem && 2 * rem % 2 == 0
  {
    hide Shr;
    NextBit(n, bit);
    MulMono(d, 0, q);
  }

  /** 2^256 divided by d, as the loop computes it. */
  function Pow2Quotient(d: Hash): Hash {
    if d == 0 then 0 else if d == 1 then TWO_256 - 1 else if d > TWO_256 / 2 then 0 else TWO_256 / d
  }

  /** How far the loop of Pow2Div has come after the bits above `bit`. */
  ghost predicate Pow2DivState(d: Hash, bit: nat, high: nat, rem: Hash)
    requires bit <= 256
  {
    if d > TWO_256 / 2 then high == 0 && rem == (if bit == 0 then 0 else Pow2(256 - bit))
    else Pow2(256 - bit) == high * d + rem && (if d == 1 then rem == 1 else rem < d)
  }

  lemma Pow2DivStep(d: Hash, bit: nat, high: nat, rem: Hash)
    requires 0 < d && 0 < bit <= 256 && Pow2DivState(d, bit, high, rem)
    ensures var doubled := 2 * rem % TWO_256;
            if doubled >= d then Pow2DivState(d, bit - 1, 2 * high + 1, doubled - d)
            else Pow2DivState(d, bit - 1, 2 * high, doubled)
  {
    hide Pow2;
    Pow2Of256();
    Pow2Double(256 - bit);
    if d > TWO_256 / 2 {
      if bit > 1 {
        Pow2Monotone(257 - bit, 255);
        Doubled(rem);
      }
    } else {
      DivBit(Pow2(256 - bit), high, d, rem, 0);
      Doubled(rem);
    }
  }

  lemma Doubled(rem: Hash)
    requires rem < TWO_256 / 2
    ensures 2 * rem % TWO_256 == 2 * rem
  {
  }

  lemma {:induction false} Pow2Monotone(a: nat, b: nat)
    requires a <= b
    ensures Pow2(a) <= Pow2(b)
  {
    if a < b {
      Pow2Monotone(a, b - 1);
    }
  }

  /** The loop for 2^256 / d, for every d: the exact floor for 2 <= d <= 2^255; at 1 the
      largest number, because 2^256 does not fit; above 2^255 the leading bit is shifted
      out and the result is zero. */
  method Pow2Div(d: Words) returns (q: Words)
    ensures Value(q) == Pow2Quotient(Value(d))
  {
    hide Value, Pow2, Shr, Bit, Pow2DivState;
    ZeroValue();
    q := ZERO;
    var zero := IsZero(d);
    if zero { return; }
    ghost var dv, high: nat := Value(d), 0;
    var rem: Words := [1, 0, 0, 0];
    OneValue();
    Pow2DivStart(dv);
    var bit := 256;
    while bit > 0
      invariant 0 <= bit <= 256
      invariant Pow2DivState(dv, bit, high, Value(rem))
      invariant Value(q) == high * Pow2(bit)
    {
      bit := bit - 1;
      ClearBit(high, bit);
      Pow2DivStep(dv, bit + 1, high, Value(rem));
      rem := Double(rem);
      var less := LessThan(rem, d);
      if less {
        high := 2 * high;
      } else {
        rem := Sub(rem, d);
        q := SetBit(q, bit);
        high := 2 * high + 1;
      }
    }
    Pow2Zero();
    Pow2DivEnd(dv, high, Value(rem));
  }

  lemma OneValue()
    ensures Value([1, 0, 0, 0]) == 1
  {
    Weight4();
    var w: Words := [1, 0, 0, 0];
    assert Low(w, 1) == 1;
    assert Low(w, 2) == 1;
    assert Low(w, 3) == 1;
  }

  lemma Pow2DivStart(d: Hash)
    requires d > 0
    ensures Pow2DivState(d, 256, 0, 1)
  {
    Pow2Zero();
  }

  lemma Pow2DivEnd(d: Hash, high: nat, rem: Hash)
    requires d > 0 && Pow2DivState(d, 0, high, rem)
    ensures high == Pow2Quotient(d)
  {
    hide Pow2;
    Pow2Of256();
    if 1 < d <= TWO_256 / 2 {
      DivUnique(TWO_256, d, high, rem);
    }
  }

  method ChainWorkOfTarget(target: Words) returns (work: Words)
    ensures Value(work) == Compact.ChainWorkOfTarget(Value(target))
  {
    hide Value;
    OneValue();
    var n := Add(target, [1, 0, 0, 0]);
    work := Pow2Div(n);
  }

  /** Position of the highest set bit, or -1 for zero. */
  method HighestBit(w: Words) returns (r: int)
    ensures Value(w) == 0 ==> r == -1
    ensures Value(w) > 0 ==> 0 <= r < 256 && Pow2(r) <= Value(w) < Pow2(r + 1)
  {
    hide Value, Pow2, Shr;
    var i := 4;
    HighNone(w);
    while i > 0
      invariant 0 <= i <= 4 && High(w, i) == 0
    {
      i := i - 1;
      if w[i] != 0 {
        HighIsShr(w, i);
        var b := 64;
        ShrWhole(w[i]);
        while b > 0
          invariant 0 < b <= 64 && Shr(w[i], b) == 0
        {
          b := b - 1;
          NextBit(w[i], b);
          if Shr(w[i], b) % 2 == 1 {
            ShrShr(Value(w), 64 * i, b);
            ShrIsOne(Value(w), 64 * i + b);
            return 64 * i + b;
          }
          if b == 0 {
            ShrNone(w[i]);
          }
        }
      }
    }
    HighAll(w);
    r := -1;
  }

  lemma ShrWhole(x: uint64)
    ensures Shr(x, 64) == 0
  {
    Pow2Of64();
    ShrUnique(x, 64, 0, x);
  }

  lemma ShrIsOne(v: nat, k: nat)
    requires Shr(v, k) == 1
    ensures Pow2(k) <= v < Pow2(k + 1)
  {
    hide Shr;
    ShrLowBits(v, k);
    Pow2Double(k);
  }

  lemma {:induction false} ByteScale(e: nat)
    ensures Pow2(8 * e) == Pow256(e)
  {
    if e != 0 {
      ByteScale(e - 1);
      assert Pow2(8) == 256;
      Pow2Add(8, 8 * (e - 1));
    }
  }

  /** setCompact on words. */
  method SetCompact(c: uint32) returns (r: Words)
    ensures Value(r) == Compact.SetCompact(c)
  {
    hide Value, Pow2;
    var size, word: nat := c / 0x100_0000, c % Compact.SIGN;
    if size <= 3 {
      ByteScale(3 - size);
      var low: uint64 := Shr(word, 8 * (3 - size));
      r := [low, 0, 0, 0];
      SmallValue(low);
    } else {
      SmallValue(word);
      ByteScale(size - 3);
      r := ShiftLeft([word, 0, 0, 0], 8 * (size - 3));
    }
  }

  lemma SmallValue(x: uint64)
    ensures Value([x, 0, 0, 0]) == x
  {
    Weight4();
    var w: Words := [x, 0, 0, 0];
    assert Low(w, 1) == x;
    assert Low(w, 2) == x;
    assert Low(w, 3) == x;
  }

  lemma LowWord(w: Words)
    ensures Value(w) % TWO_64 == w[0]
  {
    HighAll(w);
    DivUnique(High(w, 0), TWO_64, High(w, 1), w[0]);
  }

  /** The byte length is the bit length rounded up. */
  lemma {:induction false} ByteLengthOf(t: nat, r: nat)
    requires Pow2(r) <= t < Pow2(r + 1)
    ensures Compact.ByteLength(t) == (r + 8) / 8
  {
    if r < 8 {
      assert Pow2(8) == 256;
      Pow2Monotone(r + 1, 8);
      assert t / 256 == 0;
    } else {
      assert Pow2(8) == 256;
      Pow2Add(8, r - 8);
      Pow2Add(8, r - 7);
      ByteLengthOf(t / 256, r - 8);
    }
  }

  /** getCompact on words. */
  method GetCompact(w: Words) returns (c: uint32)
    ensures c == Compact.GetCompact(Value(w))
  {
    hide Value, Pow2, Shr, Compact.Mantissa;
    var top := HighestBit(w);
    var size: nat := (top + 8) / 8;
    if size == 0 {
      return 0;
    }
    ByteLengthOf(Value(w), top);
    var word: nat;
    if size <= 3 {
      SmallMantissa(w, size);
      word := w[0] * Pow256(3 - size);
    } else {
      var bn := ShiftRight(w, 8 * (size - 3));
      LargeMantissa(w, bn, size);
      word := bn[0] % TWO_32;
    }
    if word >= Compact.SIGN {
      c := word / 256 + (size + 1) * 0x100_0000;
    } else {
      c := word + size * 0x100_0000;
    }
  }

  lemma SmallMantissa(w: Words, size: nat)
    requires 0 < Compact.ByteLength(Value(w)) == size <= 3
    ensures w[0] * Pow256(3 - size) == Compact.Mantissa(Value(w))
  {
    hide Value;
    LowWord(w);
    Compact.LeadingBytes(Value(w));
    MulMono(Value(w), 1, Pow256(3 - size));
  }

  lemma LargeMantissa(w: Words, bn: Words, size: nat)
    requires Compact.ByteLength(Value(w)) == size > 3 && Value(bn) == Value(w) / Pow2(8 * (size - 3))
    ensures bn[0] % TWO_32 == Compact.Mantissa(Value(w))
  {
    hide Value, Pow2, Pow256;
    ByteScale(size - 3);
    assert Value(w) > 0;
    hide Compact.ByteLength;
    assert Value(bn) == Compact.Mantissa(Value(w));
    hide Compact.Mantissa;
    LowWord(bn);
  }
}
