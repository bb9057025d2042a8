/** 256-bit unsigned integers as four 64-bit words, least significant first. Every
    operation is proved against arithmetic on the number the words denote.
 */
module Uint256 {
  import opened Arith
  import opened Types
  import Compact

  type Words = w: seq<uint64> | |w| == 4 witness [0, 0, 0, 0]

  const ZERO: Words := [0, 0, 0, 0]

  /** 2^(64 i), the weight of word i. */
  function Weight(i: nat): (b: nat)
    ensures b >= 1
  {
    if i == 0 then 1 else TWO_64 * Weight(i - 1)
  }

  /** The number denoted by the i low words. */
  function Low(w: Words, i: nat): (n: nat)
    requires i <= 4
    ensures n < Weight(i)
  {
    if i == 0 then 0
    else
      MulMono(Weight(i - 1), w[i - 1], TWO_64 - 1);
      Low(w, i - 1) + w[i - 1] * Weight(i - 1)
  }

  lemma Weight4()
    ensures Weight(0) == 1 && Weight(1) == TWO_64
    ensures Weight(2) == TWO_64 * TWO_64 && Weight(3) == TWO_64 * TWO_64 * TWO_64 && Weight(4) == TWO_256
  {
    assert Weight(4) == TWO_64 * Weight(3);
  }

  function Value(w: Words): (n: Hash) {
    Weight4();
    Low(w, 4)
  }

  /** Low words do not change when a higher word is written. */
  lemma {:induction false} LowFrame(w: Words, i: nat, k: nat, v: uint64)
    requires i <= k < 4
    ensures Low(w[k := v], i) == Low(w, i)
  {
    if i != 0 {
      LowFrame(w, i - 1, k, v);
    }
  }

  lemma LowWrite(w: Words, i: nat, v: uint64)
    requires i < 4
    ensures Low(w[i := v], i + 1) == Low(w, i) + v * Weight(i)
  {
    LowFrame(w, i, i, v);
  }

  // ------------------------------------------------------------ comparison

  /** Words from i up agree, word i - 1 decides. */
  lemma WordDecides(a: Words, b: Words, i: nat)
    requires 1 <= i <= 4 && a[i - 1] < b[i - 1]
    ensures Low(a, i) < Low(b, i)
  {
    var p := Weight(i - 1);
    MulMono(p, a[i - 1] + 1, b[i - 1]);
    assert (a[i - 1] + 1) * p == a[i - 1] * p + p;
  }

  method LessThan(a: Words, b: Words) returns (r: bool)
    ensures r == (Value(a) < Value(b))
  {
    var i := 4;
    while i > 0
      invariant 0 <= i <= 4
      invariant Value(a) - Low(a, i) == Value(b) - Low(b, i)
    {
      if a[i - 1] != b[i - 1] {
        if a[i - 1] < b[i - 1] {
          WordDecides(a, b, i);
        } else {
          WordDecides(b, a, i);
        }
        return a[i - 1] < b[i - 1];
      }
      i := i - 1;
    }
    return false;
  }

  // ------------------------------------------------------------ addition and subtraction

  /** One word of a sum: x + y + carry splits into a word and the next carry. */
  lemma CarryStep(x: nat, y: nat, c: nat, s: nat, c': nat, p: nat)
    requires x + y + c == s + TWO_64 * c'
    ensures x * p + y * p + c * p == s * p + c' * (TWO_64 * p)
  {
    assert (x + y + c) * p == (s + TWO_64 * c') * p;
  }

  method Add(a: Words, b: Words) returns (r: Words)
    ensures Value(r) == (Value(a) + Value(b)) % TWO_256
  {
    r := ZERO;
    var carry := 0;
    for i := 0 to 4
      invariant 0 <= carry <= 1
      invariant Low(a, i) + Low(b, i) == Low(r, i) + carry * Weight(i)
    {
      var s := a[i] + b[i] + carry;
      CarryStep(a[i], b[i], carry, s % TWO_64, s / TWO_64, Weight(i));
      LowWrite(r, i, s % TWO_64);
      r := r[i := s % TWO_64];
      carry := s / TWO_64;
    }
    Weight4();
    SumMod(Value(a) + Value(b), Value(r), carry);
  }

  lemma SumMod(n: nat, r: nat, k: nat)
    requires n == r + k * TWO_256 && r < TWO_256
    ensures n % TWO_256 == r
  {
    DivUnique(n, TWO_256, k, r);
  }

  method Sub(a: Words, b: Words) returns (r: Words)
    ensures Value(a) >= Value(b) ==> Value(r) == Value(a) - Value(b)
    ensures Value(a) < Value(b) ==> Value(r) == Value(a) + TWO_256 - Value(b)
  {
    r := ZERO;
    var borrow := 0;
    for i := 0 to 4
      invariant 0 <= borrow <= 1
      invariant Low(a, i) + borrow * Weight(i) == Low(b, i) + Low(r, i)
    {
      var next := if a[i] < b[i] + borrow then 1 else 0;
      var d: uint64 := a[i] + TWO_64 * next - b[i] - borrow;
      CarryStep(b[i], d, borrow, a[i], next, Weight(i));
      LowWrite(r, i, d);
      r := r[i := d];
      borrow := next;
    }
    Weight4();
  }

  // ------------------------------------------------------------ by a 64-bit word

  lemma ProductWord(w: nat, m: nat, c: nat)
    requires w < TWO_64 && m < TWO_64 && c < TWO_64
    ensures w * m + c < TWO_64 * TWO_64
  {
    MulMono(m, w, TWO_64 - 1);
    assert (TWO_64 - 1) * m + c < TWO_64 * TWO_64;
  }

  lemma MulStep(w: nat, m: nat, c: nat, s: nat, c': nat, p: nat)
    requires w * m + c == s + TWO_64 * c'
    ensures (w * p) * m + c * p == s * p + c' * (TWO_64 * p)
  {
    assert (w * m + c) * p == (s + TWO_64 * c') * p;
    assert (w * m) * p == (w * p) * m;
  }

  /** Multiplication by a 64-bit word; the 128-bit intermediate never overflows and the
      result is the product modulo 2^256. */
  method Mul64(a: Words, m: uint64) returns (r: Words)
    ensures Value(r) == Value(a) * m % TWO_256
  {
    r := ZERO;
    var carry := 0;
    for i := 0 to 4
      invariant 0 <= carry < TWO_64
      invariant Low(a, i) * m == Low(r, i) + carry * Weight(i)
    {
      var p := a[i] * m + carry;
      ProductWord(a[i], m, carry);
      var s, c' := p % TWO_64, p / TWO_64;
      MulStep(a[i], m, carry, s, c', Weight(i));
      MulSplit(Low(a, i), a[i] * Weight(i), m);
      LowWrite(r, i, s);
      r := r[i := s];
      carry := c';
    }
    Weight4();
    SumMod(Value(a) * m, Value(r), carry);
  }

  lemma MulSplit(x: nat, y: nat, m: nat)
    ensures (x + y) * m == x * m + y * m
  {
  }

  /** The number denoted by words i..3, scaled down by the weight of word i. */
  function High(w: Words, i: nat): nat
    requires i <= 4
    decreases 4 - i
  {
    if i == 4 then 0 else w[i] + TWO_64 * High(w, i + 1)
  }

  lemma {:induction false} HighLow(w: Words, i: nat)
    requires i <= 4
    ensures Value(w) == High(w, i) * Weight(i) + Low(w, i)
    decreases 4 - i
  {
    if i != 4 {
      hide Value;
      HighLow(w, i + 1);
      HighLowStep(w[i], High(w, i + 1), Weight(i));
    }
  }

  lemma HighLowStep(x: nat, h: nat, p: nat)
    ensures (x + TWO_64 * h) * p == x * p + h * (TWO_64 * p)
  {
  }

  lemma {:induction false} HighFrame(w: Words, i: nat, k: nat, v: uint64)
    requires k < i <= 4
    ensures High(w[k := v], i) == High(w, i)
    decreases 4 - i
  {
    if i != 4 {
      HighFrame(w, i + 1, k, v);
    }
  }

  lemma QuotientWord(acc: nat, w: nat, d: nat)
    requires acc < d < TWO_64 && w < TWO_64
    ensures (acc * TWO_64 + w) / d < TWO_64
  {
    var n := acc * TWO_64 + w;
    var q := n / d;
    assert n == d * q + n % d;
    if q >= TWO_64 {
      MulMono(d, TWO_64, q);
    }
  }

  /** One digit of the long division: a 128-bit numerator by a word. */
  function WordQuotient(acc: nat, w: uint64, d: uint64): (q: uint64)
    requires acc < d
  {
    QuotientWord(acc, w, d);
    (acc * TWO_64 + w) / d
  }

  function WordRemainder(acc: nat, w: uint64, d: uint64): (r: uint64)
    requires acc < d
    ensures r < d
  {
    (acc * TWO_64 + w) % d
  }

  lemma DivStep(q: nat, d: uint64, acc: nat, h: nat, w: uint64)
    requires h == q * d + acc && acc < d
    ensures w + TWO_64 * h == (WordQuotient(acc, w, d) + TWO_64 * q) * d + WordRemainder(acc, w, d)
  {
    var n := acc * TWO_64 + w;
    var x, y := n / d, n % d;
    assert n == d * x + y;
    assert (x + TWO_64 * q) * d == x * d + TWO_64 * (q * d);
  }

  lemma DivWord(a: Words, r: Words, i: nat, d: uint64, acc: nat)
    requires i < 4 && acc < d && High(a, i + 1) == High(r, i + 1) * d + acc
    ensures High(a, i) == High(r[i := WordQuotient(acc, a[i], d)], i) * d + WordRemainder(acc, a[i], d)
  {
    hide WordQuotient, WordRemainder;
    DivStep(High(r, i + 1), d, acc, High(a, i + 1), a[i]);
    HighFrame(r, i + 1, i, WordQuotient(acc, a[i], d));
  }

  lemma HighNone(w: Words)
    ensures High(w, 4) == 0
  {
  }

  lemma HighAll(w: Words)
    ensures Value(w) == High(w, 0)
  {
    HighLow(w, 0);
    Weight4();
  }

  /** Long division by a 64-bit word: the floor, for every nonzero divisor. */
  method Div64(a: Words, d: uint64) returns (r: Words, rem: uint64)
    requires d > 0
    ensures Value(r) == Value(a) / d && rem == Value(a) % d
  {
    hide Value, High, WordQuotient, WordRemainder;
    r := ZERO;
    var acc := 0;
    assert High(a, 4) == High(r, 4) * d + acc by { HighNone(a); HighNone(r); }
    var i := 4;
    while i > 0
      invariant 0 <= i <= 4
      invariant 0 <= acc < d
      invariant High(a, i) == High(r, i) * d + acc
    {
      i := i - 1;
      DivWord(a, r, i, d, acc);
      r, acc := r[i := WordQuotient(acc, a[i], d)], WordRemainder(acc, a[i], d);
    }
    rem := acc;
    HighAll(a);
    HighAll(r);
    DivUnique(High(a, 0), d, High(r, 0), acc);
  }

  // ------------------------------------------------------------ bits

  /** Bitwise or, bit by bit. */
  function Or(a: nat, b: nat): (r: nat) {
    if a == 0 && b == 0 then 0
    else (if a % 2 == 1 || b % 2 == 1 then 1 else 0) + 2 * Or(a / 2, b / 2)
  }

  /** With no bit in common, or is addition. */
  lemma {:induction false} OrDisjoint(a: nat, b: nat, k: nat)
    requires a % Pow2(k) == 0 && b < Pow2(k)
    ensures Or(a, b) == a + b
    decreases k
  {
    if k == 0 {
      OrZero(a);
    } else {
      var p := Pow2(k - 1);
      var q := a / (2 * p);
      assert a == 2 * (p * q);
      DivUnique(a / 2, p, q, 0);
      OrDisjoint(a / 2, b / 2, k - 1);
    }
  }

  lemma {:induction false} OrZero(a: nat)
    ensures Or(a, 0) == a
  {
    if a != 0 {
      OrZero(a / 2);
    }
  }

  lemma {:induction false} WeightIsPow2(i: nat)
    ensures Weight(i) == Pow2(64 * i)
  {
    if i != 0 {
      WeightIsPow2(i - 1);
      Pow2Of64();
      Pow2Add(64, 64 * (i - 1));
    }
  }

  lemma Pow2Of64()
    ensures Pow2(64) == TWO_64
  {
    assert Pow2(8) == 256;
    assert Pow2(16) == 0x1_0000;
    Pow2Add(16, 16);
    Pow2Add(32, 32);
  }

  lemma {:induction false} WeightAdd(i: nat, j: nat)
    ensures Weight(i + j) == Weight(i) * Weight(j)
  {
    if i != 0 {
      WeightAdd(i - 1, j);
      assert TWO_64 * (Weight(i - 1) * Weight(j)) == (TWO_64 * Weight(i - 1)) * Weight(j);
    }
  }

  /** 2^b and 2^(64 - b) multiply to a word. */
  lemma SplitWord(b: nat)
    requires b <= 64
    ensures Pow2(b) * Pow2(64 - b) == TWO_64
  {
    Pow2Of64();
    Pow2Add(b, 64 - b);
  }

  /** x >> b, and the b bits it drops. */
  function Shr(x: nat, b: nat): (r: nat)
    ensures r <= x
  {
    Quotient(x, Pow2(b))
  }

  function LowBits(x: nat, b: nat): (r: nat)
    ensures r < Pow2(b)
  {
    x % Pow2(b)
  }

  lemma ShrLowBits(x: nat, b: nat)
    ensures x == Pow2(b) * Shr(x, b) + LowBits(x, b)
  {
  }

  lemma ShrUnique(x: nat, b: nat, q: nat, r: nat)
    requires x == Pow2(b) * q + r && r < Pow2(b)
    ensures Shr(x, b) == q && LowBits(x, b) == r
  {
    DivUnique(x, Pow2(b), q, r);
  }

  lemma ShrBound(x: uint64, b: nat)
    requires b <= 64
    ensures Shr(x, b) < Pow2(64 - b)
  {
    hide Shr, LowBits, Pow2;
    ShrLowBits(x, b);
    SplitWord(b);
    var p, q := Pow2(b), Pow2(64 - b);
    if Shr(x, b) >= q {
      MulMono(p, q, Shr(x, b));
    }
  }

  // ------------------------------------------------------------ shifts

  /** x << b within a word, and the bits that leave it. */
  function Kept(x: uint64, b: nat): (r: uint64) { x * Pow2(b) % TWO_64 }
  function Carried(x: uint64, b: nat): nat { x * Pow2(b) / TWO_64 }

  lemma CarriedIsShift(x: uint64, b: nat)
    requires b < 64
    ensures Carried(x, b) == Shr(x, 64 - b) && Carried(x, b) < Pow2(b)
    ensures Kept(x, b) == LowBits(x, 64 - b) * Pow2(b) && Kept(x, b) % Pow2(b) == 0
  {
    hide Shr, LowBits, Pow2;
    var h, l := Shr(x, 64 - b), LowBits(x, 64 - b);
    SplitWord(b);
    ShrLowBits(x, 64 - b);
    CarriedParts(x, Pow2(b), Pow2(64 - b), h, l);
    DivUnique(x * Pow2(b), TWO_64, h, l * Pow2(b));
    DivUnique(l * Pow2(b), Pow2(b), l, 0);
  }

  lemma CarriedParts(x: nat, p: nat, q: nat, h: nat, l: nat)
    requires p * q == TWO_64 && x < TWO_64 && x == q * h + l && l < q && p > 0
    ensures x * p == TWO_64 * h + l * p && l * p < TWO_64 && h < p
  {
    assert (q * h + l) * p == (p * q) * h + l * p;
    MulMono(p, l, q - 1);
    assert p * (q - 1) == p * q - p;
    if h >= p {
      MulMono(q, p, h);
    }
  }

  /** Word i of the shifted number: what word src keeps, and what the word below carries. */
  function ShlWord(w: Words, ws: nat, b: nat, i: nat): nat
    requires i < 4 && b < 64
  {
    if i < ws then 0
    else Kept(w[i - ws], b) + (if i - ws >= 1 then Carried(w[i - ws - 1], b) else 0)
  }

  function CarryInto(w: Words, ws: nat, b: nat, i: nat): nat
    requires i <= 4
  {
    if i - ws >= 1 then Carried(w[i - ws - 1], b) else 0
  }

  /** The low words of the shifted number, with the bits that leave them. */
  lemma {:induction false} ShlLow(w: Words, r: Words, ws: nat, b: nat, i: nat)
    requires ws <= i <= 4 && ws < 4 && b < 64
    requires forall k :: 0 <= k < 4 ==> r[k] == ShlWord(w, ws, b, k)
    ensures Low(r, i) + CarryInto(w, ws, b, i) * Weight(i) == Low(w, i - ws) * Pow2(b) * Weight(ws)
  {
    hide Kept, Carried;
    if i == ws {
      LowZero(r, ws);
    } else {
      var j := i - 1 - ws;
      ShlLow(w, r, ws, b, i - 1);
      WeightAdd(j, ws);
      assert w[j] * Pow2(b) == Kept(w[j], b) + TWO_64 * Carried(w[j], b) by { KeptCarried(w[j], b); }
      ShlAlgebra(Low(r, i - 1), CarryInto(w, ws, b, i - 1), Weight(i - 1), Low(w, j), Pow2(b), Weight(ws),
                 w[j], Kept(w[j], b), Carried(w[j], b), Weight(j));
    }
  }

  lemma KeptCarried(x: uint64, b: nat)
    ensures x * Pow2(b) == Kept(x, b) + TWO_64 * Carried(x, b)
  {
  }

  lemma {:induction false} LowZero(r: Words, i: nat)
    requires i <= 4 && forall k :: 0 <= k < i ==> r[k] == 0
    ensures Low(r, i) == 0
  {
    if i != 0 {
      LowZero(r, i - 1);
    }
  }

  lemma ShlAlgebra(lowR: nat, cin: nat, wt: nat, lowW: nat, p: nat, ws: nat,
                   x: nat, kept: nat, cout: nat, wj: nat)
    requires lowR + cin * wt == lowW * p * ws && wt == wj * ws && x * p == kept + TWO_64 * cout
    ensures lowR + (kept + cin) * wt + cout * (TWO_64 * wt) == (lowW + x * wj) * p * ws
  {
    calc {
      (lowW + x * wj) * p * ws;
      lowW * p * ws + (x * wj) * p * ws;
      { assert (x * wj) * p * ws == (x * p) * (wj * ws); }
      lowW * p * ws + (x * p) * wt;
      lowW * p * ws + (kept + TWO_64 * cout) * wt;
      lowR + cin * wt + (kept + TWO_64 * cout) * wt;
    }
  }

  lemma ShlValue(w: Words, r: Words, ws: nat, b: nat)
    requires ws < 4 && b < 64
    requires forall k :: 0 <= k < 4 ==> r[k] == ShlWord(w, ws, b, k)
    ensures Value(r) == Value(w) * Pow2(64 * ws + b) % TWO_256
  {
    hide ShlWord, CarryInto, Low, High, Weight, Pow2;
    ShlLow(w, r, ws, b, 4);
    HighLow(w, 4 - ws);
    WeightAdd(4 - ws, ws);
    WeightIsPow2(ws);
    Pow2Add(64 * ws, b);
    Weight4();
    var c, h, p := CarryInto(w, ws, b, 4), High(w, 4 - ws), Pow2(b);
    ShlTop(Value(r), c, Low(w, 4 - ws), p, Weight(ws), h, Weight(4 - ws));
    SumMod(Value(w) * (Weight(ws) * p), Value(r), c + h * p);
  }

  lemma ShlTop(r: nat, c: nat, low: nat, p: nat, ws: nat, h: nat, wt: nat)
    requires r + c * TWO_256 == low * p * ws && wt * ws == TWO_256
    ensures (h * wt + low) * (ws * p) == r + (c + h * p) * TWO_256
  {
    assert (h * wt + low) * (ws * p) == (h * p) * (wt * ws) + low * p * ws;
  }

  /** Left shift by any count: multiplication by 2^n modulo 2^256. */
  method ShiftLeft(w: Words, n: uint32) returns (r: Words)
    ensures Value(r) == Value(w) * Pow2(n) % TWO_256
  {
    hide Value, ShlWord, Kept, Carried, Shr, Or;
    r := ZERO;
    if n >= 256 {
      ZeroValue();
      ShiftedOut(Value(w), n);
      return;
    }
    var ws, b := n / 64, n % 64;
    var i := 4;
    while i > 0
      invariant 0 <= i <= 4
      invariant forall k :: i <= k < 4 ==> r[k] == ShlWord(w, ws, b, k)
    {
      i := i - 1;
      var src := i - ws;
      var x: uint64 := 0;
      if src >= 0 {
        x := Kept(w[src], b);
        if b != 0 && src - 1 >= 0 {
          CarriedIsShift(w[src - 1], b);
          OrWord(w[src], w[src - 1], b);
          x := Or(x, Shr(w[src - 1], 64 - b));
        }
      }
      ShlWordIs(w, ws, b, i, x);
      r := r[i := x];
    }
    ShlValue(w, r, ws, b);
  }

  lemma ShlWordIs(w: Words, ws: nat, b: nat, i: nat, x: uint64)
    requires i < 4 && b < 64
    requires i < ws ==> x == 0
    requires i == ws || (i > ws && b == 0) ==> x == Kept(w[i - ws], b)
    requires i > ws && b != 0 ==> x == Kept(w[i - ws], b) + Carried(w[i - ws - 1], b)
    ensures x == ShlWord(w, ws, b, i)
  {
    if i > ws && b == 0 {
      CarriedIsShift(w[i - ws - 1], 0);
    }
  }

  /** The two halves of a shifted word share no bit, and their union is a word. */
  lemma OrWord(x: uint64, y: uint64, b: nat)
    requires 0 < b < 64
    ensures Or(Kept(x, b), Carried(y, b)) == Kept(x, b) + Carried(y, b) < TWO_64
  {
    CarriedIsShift(x, b);
    CarriedIsShift(y, b);
    OrDisjoint(Kept(x, b), Carried(y, b), b);
    SplitWord(b);
    hide Kept, Carried;
    NextMultiple(Kept(x, b), Pow2(b), Pow2(64 - b));
  }

  lemma NextMultiple(x: nat, p: nat, q: nat)
    requires p > 0 && x % p == 0 && x < p * q
    ensures x + p <= p * q
  {
    var k := x / p;
    assert x == p * k;
    if k >= q {
      MulMono(p, q, k);
    } else {
      MulMono(p, k + 1, q);
    }
  }

  lemma ZeroValue()
    ensures Value(ZERO) == 0
  {
    LowZero(ZERO, 4);
  }

  lemma ShiftedOut(v: nat, n: nat)
    requires n >= 256
    ensures v * Pow2(n) % TWO_256 == 0
  {
    WeightIsPow2(4);
    Weight4();
    Pow2Add(n - 256, 256);
    Compact.MultipleVanishes(v, Pow2(n - 256), TWO_256);
  }

  /** Word i of the number shifted right: what stays of word src, and the low bits of the
      word above moved up. */
  function ShrWord(w: Words, ws: nat, b: nat, i: nat): nat
    requires i < 4 && b < 64
  {
    if i + ws >= 4 then 0
    else Shr(w[i + ws], b) + (if i + ws + 1 < 4 then LowBits(w[i + ws + 1], b) * Pow2(64 - b) else 0)
  }

  /** Shifting a two-word number right: the high part's low bits drop into the low word. */
  lemma ShrStep(x: nat, h: nat, b: nat)
    requires b <= 64
    ensures Shr(x + TWO_64 * h, b) == Shr(x, b) + LowBits(h, b) * Pow2(64 - b) + TWO_64 * Shr(h, b)
    ensures LowBits(x + TWO_64 * h, b) == LowBits(x, b)
  {
    hide Shr, LowBits, Pow2;
    ShrLowBits(x, b);
    ShrLowBits(h, b);
    SplitWord(b);
    var p, q := Pow2(b), Pow2(64 - b);
    ShrAlgebra(p, q, Shr(x, b), LowBits(h, b), Shr(h, b));
    ShrUnique(x + TWO_64 * h, b, Shr(x, b) + LowBits(h, b) * q + TWO_64 * Shr(h, b), LowBits(x, b));
  }

  lemma ShrAlgebra(p: nat, q: nat, y: nat, m: nat, k: nat)
    requires p * q == TWO_64
    ensures p * (y + m * q + TWO_64 * k) == p * y + TWO_64 * (p * k + m)
  {
    assert p * (m * q) == (p * q) * m;
    assert p * (TWO_64 * k) == TWO_64 * (p * k);
  }

  lemma {:induction false} ShrHigh(w: Words, r: Words, ws: nat, b: nat, i: nat)
    requires i <= 4 && ws < 4 && b < 64
    requires forall k :: 0 <= k < 4 ==> r[k] == ShrWord(w, ws, b, k)
    ensures High(r, i) == if i + ws >= 4 then 0 else Shr(High(w, i + ws), b)
    decreases 4 - i
  {
    hide Shr, ShrWord;
    if i < 4 {
      ShrHigh(w, r, ws, b, i + 1);
      if i + ws < 4 {
        ShrZero(b);
        ShrWordValue(w, ws, b, i);
      } else {
        ShrWordNone(w, ws, b, i);
      }
    }
  }

  lemma ShrWordNone(w: Words, ws: nat, b: nat, i: nat)
    requires i < 4 && b < 64 && i + ws >= 4
    ensures ShrWord(w, ws, b, i) == 0
  {
  }

  lemma ShrWordValue(w: Words, ws: nat, b: nat, i: nat)
    requires i + ws < 4 && b < 64
    ensures ShrWord(w, ws, b, i) + TWO_64 * Shr(High(w, i + ws + 1), b) == Shr(High(w, i + ws), b)
  {
    hide Shr, LowBits, Pow2;
    ShrStep(w[i + ws], High(w, i + ws + 1), b);
    if i + ws + 1 < 4 {
      ShrStep(w[i + ws + 1], High(w, i + ws + 2), b);
    } else {
      ShrZero(b);
    }
  }

  lemma ShrZero(b: nat)
    ensures Shr(0, b) == 0 && LowBits(0, b) == 0
  {
  }

  lemma HighIsQuotient(w: Words, i: nat)
    requires i <= 4
    ensures High(w, i) == Value(w) / Weight(i)
  {
    hide High, Low, Weight, Value;
    HighLow(w, i);
    DivUnique(Value(w), Weight(i), High(w, i), Low(w, i));
  }

  lemma ShrValue(w: Words, r: Words, ws: nat, b: nat)
    requires ws < 4 && b < 64
    requires forall k :: 0 <= k < 4 ==> r[k] == ShrWord(w, ws, b, k)
    ensures Value(r) == Value(w) / Pow2(64 * ws + b)
  {
    hide ShrWord, Value;
    HighAll(r);
    ShrHigh(w, r, ws, b, 0);
    HighIsQuotient(w, ws);
    DivDiv(Value(w), Weight(ws), Pow2(b));
    WeightIsPow2(ws);
    Pow2Add(64 * ws, b);
  }

  /** Right shift by any count: the floor of the division by 2^n. */
  method ShiftRight(w: Words, n: uint32) returns (r: Words)
    ensures Value(r) == Value(w) / Pow2(n)
  {
    hide Value, ShrWord, Kept, Shr, Or, Pow2;
    r := ZERO;
    if n >= 256 {
      ZeroValue();
      Pow2Large(n);
      return;
    }
    var ws, b := n / 64, n % 64;
    for i := 0 to 4
      invariant forall k :: 0 <= k < i ==> r[k] == ShrWord(w, ws, b, k)
    {
      var src := i + ws;
      var x: uint64 := 0;
      if src < 4 {
        x := Shr(w[src], b);
        if b != 0 && src + 1 < 4 {
          OrHalves(w[src], w[src + 1], b);
          x := Or(x, Kept(w[src + 1], 64 - b));
        }
      }
      ShrWordIs(w, ws, b, i, x);
      r := r[i := x];
    }
    ShrValue(w, r, ws, b);
  }

  lemma ShrWordIs(w: Words, ws: nat, b: nat, i: nat, x: uint64)
    requires i < 4 && b < 64
    requires i + ws >= 4 ==> x == 0
    requires i + ws == 3 || (i + ws < 3 && b == 0) ==> x == Shr(w[i + ws], b)
    requires i + ws < 3 && b != 0 ==> x == Shr(w[i + ws], b) + LowBits(w[i + ws + 1], b) * Pow2(64 - b)
    ensures x == ShrWord(w, ws, b, i)
  {
    if b == 0 {
      assert Pow2(0) == 1;
    }
  }

  lemma OrHalves(x: uint64, y: uint64, b: nat)
    requires 0 < b < 64
    ensures Or(Shr(x, b), Kept(y, 64 - b)) == Shr(x, b) + LowBits(y, b) * Pow2(64 - b) < TWO_64
  {
    hide Shr, LowBits, Pow2, Kept, Or;
    CarriedIsShift(y, 64 - b);
    ShrBound(x, b);
    SplitWord(64 - b);
    NextMultiple(Kept(y, 64 - b), Pow2(64 - b), Pow2(b));
    OrDisjoint(Kept(y, 64 - b), Shr(x, b), 64 - b);
    OrCommutes(Shr(x, b), Kept(y, 64 - b));
  }

  lemma {:induction false} OrCommutes(a: nat, b: nat)
    ensures Or(a, b) == Or(b, a)
  {
    if a != 0 || b != 0 {
      OrCommutes(a / 2, b / 2);
    }
  }

  lemma Pow2Large(n: nat)
    requires n >= 256
    ensures forall v: Hash :: v / Pow2(n) == 0
  {
    WeightIsPow2(4);
    Weight4();
    Pow2Add(n - 256, 256);
    MulMono(TWO_256, 1, Pow2(n - 256));
    forall v: Hash
      ensures v / Pow2(n) == 0
    {
      DivUnique(v, Pow2(n), 0, v);
    }
  }

  // ------------------------------------------------------------ single bits

  predicate Bit(v: nat, n: nat) {
    Shr(v, n) % 2 == 1
  }

  lemma {:induction false} ShrShr(v: nat, a: nat, b: nat)
    ensures Shr(Shr(v, a), b) == Shr(v, a + b)
  {
    Pow2Add(a, b);
    DivDiv(v, Pow2(a), Pow2(b));
  }

  lemma HighIsShr(w: Words, i: nat)
    requires i <= 4
    ensures High(w, i) == Shr(Value(w), 64 * i)
  {
    hide High, Value, Weight;
    HighIsQuotient(w, i);
    WeightIsPow2(i);
  }

  lemma WordBit(w: Words, n: nat)
    requires n < 256
    ensures Bit(Value(w), n) == Bit(w[n / 64], n % 64)
  {
    hide Value, Shr, LowBits, Pow2;
    var i, b := n / 64, n % 64;
    HighIsShr(w, i);
    ShrShr(Value(w), 64 * i, b);
    ShrStep(w[i], High(w, i + 1), b);
    assert Pow2(64 - b) == 2 * Pow2(63 - b) by { Pow2Double(63 - b); }
    EvenParts(LowBits(High(w, i + 1), b), Pow2(63 - b), Shr(w[i], b), Shr(High(w, i + 1), b));
  }

  lemma Pow2Double(k: nat)
    ensures Pow2(k + 1) == 2 * Pow2(k)
  {
  }

  lemma EvenParts(m: nat, q: nat, y: nat, k: nat)
    ensures (y + m * (2 * q) + TWO_64 * k) % 2 == y % 2
  {
    assert m * (2 * q) == 2 * (m * q);
    assert TWO_64 * k == 2 * (0x8000_0000_0000_0000 * k);
  }

  method BitTest(w: Words, n: nat) returns (r: bool)
    requires n < 256
    ensures r == Bit(Value(w), n)
  {
    WordBit(w, n);
    r := Shr(w[n / 64], n % 64) % 2 == 1;
  }

  lemma {:induction false} OrBit(x: nat, b: nat)
    ensures Or(x, Pow2(b)) == if Bit(x, b) then x else x + Pow2(b)
  {
    hide Shr;
    if b == 0 {
      OrZero(x / 2);
      ShrNone(x);
    } else {
      OrBit(x / 2, b - 1);
      ShrShr(x, 1, b - 1);
      ShrNone(x);
    }
  }

  lemma ShrNone(x: nat)
    ensures Shr(x, 0) == x && Shr(x, 1) == x / 2
  {
    assert Pow2(0) == 1 && Pow2(1) == 2;
  }

  /** A clear bit can be set without leaving the word. */
  lemma BitRoom(x: uint64, b: nat)
    requires b < 64 && !Bit(x, b)
    ensures x + Pow2(b) < TWO_64
  {
    hide Shr, LowBits, Pow2;
    var p, q, k := Pow2(b), Pow2(63 - b), Shr(x, b);
    SplitWord(b);
    Pow2Double(63 - b);
    ShrLowBits(x, b);
    ShrBound(x, b);
    assert k + 2 <= 2 * q;
    MulMono(p, k + 2, 2 * q);
    assert p * (k + 2) == p * k + 2 * p;
  }

  lemma {:induction false} WriteWord(w: Words, k: nat, v: uint64, i: nat)
    requires k < 4 && i <= 4
    ensures Low(w[k := v], i) - Low(w, i) == if k < i then (v - w[k]) * Weight(k) else 0
  {
    if i != 0 {
      WriteWord(w, k, v, i - 1);
      if k == i - 1 {
        assert v * Weight(k) - w[k] * Weight(k) == (v - w[k]) * Weight(k);
      }
    }
  }

  /** Sets bit n: adds 2^n unless the bit is already set. */
  method SetBit(w: Words, n: nat) returns (r: Words)
    requires n < 256
    ensures Value(r) == if Bit(Value(w), n) then Value(w) else Value(w) + Pow2(n)
  {
    hide Value, Bit, Or, Weight, Low, Pow2;
    var i, b := n / 64, n % 64;
    WordBit(w, n);
    OrBit(w[i], b);
    if !Bit(w[i], b) {
      BitRoom(w[i], b);
    }
    var x: uint64 := Or(w[i], Pow2(b));
    r := w[i := x];
    WriteValue(w, i, x);
    WeightIsPow2(i);
    Pow2Add(b, 64 * i);
  }

  lemma WriteValue(w: Words, k: nat, v: uint64)
    requires k < 4
    ensures Value(w[k := v]) == Value(w) + (v - w[k]) * Weight(k)
  {
    WriteWord(w, k, v, 4);
  }
}
