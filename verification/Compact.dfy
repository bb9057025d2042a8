/** The compact "bits" format, proof of work, chain work and difficulty adjustment,
    over 256-bit numbers as values.
 */
module Compact {
  import opened Arith
  import opened Types
  import opened Bytes

  const SIGN: nat := 0x80_0000

  /** setCompact: size byte, 23-bit mantissa; bits shifted past 256 are lost. */
  function SetCompact(c: uint32): Hash {
    var size, word := c / 0x100_0000, c % SIGN;
    if size <= 3 then Quotient(word, Pow256(3 - size))
    else Shifted(word, size - 3)
  }

  /** A left shift by e bytes within 256 bits. */
  function Shifted(w: nat, e: nat): Hash {
    w * Pow256(e) % TWO_256
  }

  function ByteLength(t: nat): nat {
    if t == 0 then 0 else 1 + ByteLength(t / 256)
  }

  /** getCompact: the three leading bytes, moved down one byte when the sign bit would
      be set. */
  function GetCompact(t: Hash): (c: uint32) {
    Pow256Values();
    ByteLengthBound(t, 32);
    var size := ByteLength(t);
    if size == 0 then 0
    else if Mantissa(t) >= SIGN then Mantissa(t) / 256 + (size + 1) * 0x100_0000
    else Mantissa(t) + size * 0x100_0000
  }

  function Mantissa(t: nat): (m: nat)
    requires t > 0
    ensures 0x1_0000 <= m < 0x100_0000
  {
    LeadingBytes(t);
    if ByteLength(t) <= 3 then t * Pow256(3 - ByteLength(t)) else t / Pow256(ByteLength(t) - 3)
  }

  lemma {:induction false} ByteLengthBound(t: nat, k: nat)
    requires t < Pow256(k)
    ensures ByteLength(t) <= k
    decreases k
  {
    if t != 0 {
      ByteLengthBound(t / 256, k - 1);
    }
  }

  lemma {:induction false} LeadingBytes(t: nat)
    requires t > 0
    ensures ByteLength(t) >= 1
    ensures ByteLength(t) <= 3 ==> 0x1_0000 <= t * Pow256(3 - ByteLength(t)) < 0x100_0000
    ensures ByteLength(t) > 3 ==> 0x1_0000 <= t / Pow256(ByteLength(t) - 3) < 0x100_0000
  {
    if t < 0x100_0000 {
      SmallLength(t);
    } else {
      LeadingBytes(t / 256);
      DropByte(t);
    }
  }

  lemma SmallLength(t: nat)
    requires 0 < t < 0x100_0000
    ensures ByteLength(t) == if t < 0x100 then 1 else if t < 0x1_0000 then 2 else 3
    ensures Pow256(0) == 1 && Pow256(1) == 0x100 && Pow256(2) == 0x1_0000
  {
    assert ByteLength(t / 256 / 256 / 256) == 0;
  }

  lemma DropByte(t: nat)
    requires t >= 0x100_0000
    ensures ByteLength(t) == 1 + ByteLength(t / 256) && ByteLength(t) >= 4
    ensures t / Pow256(ByteLength(t) - 3) == t / 256 / Pow256(ByteLength(t / 256) - 3)
  {
    LengthAtLeast3(t / 256);
    DivDiv(t, 256, Pow256(ByteLength(t / 256) - 3));
  }

  lemma LengthAtLeast3(t: nat)
    requires t >= 0x1_0000
    ensures ByteLength(t) >= 3
  {
    assert ByteLength(t / 256 / 256) >= 1;
  }

  // ------------------------------------------- rounding to what the format can say

  /** The numbers with a 23-bit mantissa and a power of 256 as scale. */
  predicate Representable(v: nat) {
    v < SIGN || (v % 256 == 0 && Representable(v / 256))
  }

  /** Clears low bytes until 23 bits remain. */
  function Truncate(t: nat): (r: nat)
    ensures r <= t && Representable(r)
  {
    if t < SIGN then t else 256 * Truncate(t / 256)
  }

  lemma {:induction false} TruncateKeepsScale(t: nat)
    requires t >= 0x8000
    ensures Truncate(t) >= 0x8000
  {
    if t >= SIGN {
      TruncateKeepsScale(t / 256);
    }
  }

  /** Truncation is the greatest representable lower bound. */
  lemma {:induction false} TruncateIsGreatest(v: nat, t: nat)
    requires Representable(v) && v <= t
    ensures v <= Truncate(t)
  {
    if t >= SIGN {
      if v < SIGN {
        TruncateKeepsScale(t / 256);
      } else {
        TruncateIsGreatest(v / 256, t / 256);
      }
    }
  }

  /** What is cleared is less than 2^-15 of what is kept. */
  lemma {:induction false} TruncateLoss(t: nat)
    requires t >= SIGN
    ensures (t - Truncate(t) + 1) * 0x8000 <= Truncate(t)
  {
    var u := t / 256;
    if u >= SIGN {
      TruncateLoss(u);
    }
    assert t == 256 * u + t % 256;
  }

  lemma {:induction false} ScaledRepresentable(w: nat, e: nat)
    requires w < SIGN
    ensures Representable(w * Pow256(e))
  {
    if e != 0 {
      var v := w * Pow256(e - 1);
      ScaledRepresentable(w, e - 1);
      assert w * (256 * Pow256(e - 1)) == 256 * v;
    }
  }

  lemma SetCompactRepresentable(c: uint32)
    ensures Representable(SetCompact(c))
  {
    var size, word := c / 0x100_0000, c % SIGN;
    if size <= 3 {
      SmallQuotient(word, Pow256(3 - size));
    } else {
      var e := size - 3;
      if e < 32 {
        Pow256Values();
        Pow256Add(e, 32 - e);
        ModScaled(word, Pow256(e), Pow256(32 - e));
        SmallRemainder(word, Pow256(32 - e));
        ScaledRepresentable(word % Pow256(32 - e), e);
      } else {
        Pow256Values();
        Pow256Add(e - 32, 32);
        MultipleVanishes(word, Pow256(e - 32), TWO_256);
      }
    }
  }

  lemma SmallRemainder(n: nat, d: nat)
    requires d > 0
    ensures n % d <= n
  {
  }

  lemma ModScaled(w: nat, p: nat, q: nat)
    requires p > 0 && q > 0
    ensures p * q > 0 && w * p % (p * q) == w % q * p
  {
    var k, r := w / q, w % q;
    ModScaledParts(w, p, q, k, r);
    DivUnique(w * p, p * q, k, r * p);
  }

  lemma ModScaledParts(w: nat, p: nat, q: nat, k: nat, r: nat)
    requires w == q * k + r && r < q && p > 0
    ensures w * p == (p * q) * k + r * p && r * p < p * q
  {
    assert (q * k + r) * p == (p * q) * k + r * p;
    MulMono(p, r, q - 1);
    assert p * (q - 1) == p * q - p;
  }

  lemma MultipleVanishes(w: nat, p: nat, m: nat)
    requires m > 0
    ensures w * (p * m) % m == 0
  {
    assert w * (p * m) == m * (w * p) + 0;
    DivUnique(w * (p * m), m, w * p, 0);
  }

  lemma GetCompactStep(t: Hash)
    requires t >= 0x100_0000
    ensures GetCompact(t) == GetCompact(t / 256) + 0x100_0000
  {
    DropByte(t);
    LeadingBytes(t);
    LeadingBytes(t / 256);
    SmallOrNot(t / 256);
  }

  lemma SmallOrNot(t: nat)
    requires t >= 0x1_0000
    ensures ByteLength(t) >= 3 && Pow256(0) == 1
  {
    LengthAtLeast3(t);
  }

  /** The size byte of a compact number is at least 3 when 24 bits are significant. */
  lemma GetCompactSize(t: Hash)
    requires t >= 0x1_0000
    ensures 0x300_0000 <= GetCompact(t) < 0x2200_0000
  {
    LengthAtLeast3(t);
    LeadingBytes(t);
    Pow256Values();
    ByteLengthBound(t, 32);
  }

  lemma SetCompactStep(c: uint32)
    requires 0x300_0000 <= c < 0x2200_0000
    requires 256 * SetCompact(c) < TWO_256
    ensures SetCompact(c + 0x100_0000) == 256 * SetCompact(c)
  {
    hide Shifted;
    var size, word := c / 0x100_0000, c % SIGN;
    assert (c + 0x100_0000) / 0x100_0000 == size + 1 && (c + 0x100_0000) % SIGN == word;
    if size == 3 {
      assert Pow256(0) == 1;
      ShiftedZero(word);
      ShiftedStep(word, 0);
    } else {
      ShiftedStep(word, size - 3);
    }
  }

  lemma ShiftedZero(w: nat)
    requires w < TWO_256
    ensures Shifted(w, 0) == w
  {
    assert Pow256(0) == 1;
  }

  lemma ShiftedStep(w: nat, e: nat)
    requires 256 * Shifted(w, e) < TWO_256
    ensures Shifted(w, e + 1) == 256 * Shifted(w, e)
  {
    var n := w * Pow256(e);
    assert w * Pow256(e + 1) == 256 * n by {
      assert Pow256(e + 1) == 256 * Pow256(e);
    }
    ScaleThroughMod(n, TWO_256);
  }

  lemma ScaleThroughMod(n: nat, m: nat)
    requires m > 0 && 256 * (n % m) < m
    ensures 256 * n % m == 256 * (n % m)
  {
    var k, r := n / m, n % m;
    assert n == m * k + r;
    assert 256 * n == m * (256 * k) + 256 * r;
    DivUnique(256 * n, m, 256 * k, 256 * r);
  }

  /** Encoding then decoding is truncation, for every 256-bit number. */
  lemma {:induction false} RoundTrip(t: Hash)
    ensures SetCompact(GetCompact(t)) == Truncate(t)
  {
    hide GetCompact, SetCompact;
    if t < 0x100_0000 {
      SmallRoundTrip(t);
    } else {
      RoundTrip(t / 256);
      GetCompactStep(t);
      GetCompactSize(t / 256);
      SetCompactStep(GetCompact(t / 256));
    }
  }

  lemma SmallRoundTrip(t: Hash)
    requires t < 0x100_0000
    ensures SetCompact(GetCompact(t)) == Truncate(t)
  {
    hide GetCompact, SetCompact, Shifted;
    SmallEncoding(t);
    SmallDecoding(t);
  }

  lemma SmallEncoding(t: Hash)
    requires t < 0x100_0000
    ensures GetCompact(t) ==
            if t == 0 then 0 else if t < 0x80 then t * 0x1_0000 + 0x100_0000
            else if t < 0x100 then t * 0x100 + 0x200_0000
            else if t < 0x8000 then t * 0x100 + 0x200_0000
            else if t < SIGN then t + 0x300_0000
            else t / 256 + 0x400_0000
  {
    if t > 0 {
      SmallLength(t);
    }
  }

  lemma Decoded(size: nat, word: nat)
    requires size <= 4 && word < SIGN
    ensures SetCompact(word + size * 0x100_0000) ==
            if size == 4 then word * 256 else word / Pow256(3 - size)
  {
    var c := word + size * 0x100_0000;
    assert c / 0x100_0000 == size && c % SIGN == word;
    if size == 4 {
      assert Pow256(1) == 256;
    }
  }

  lemma SmallDecoding(t: Hash)
    requires t < 0x100_0000
    ensures SetCompact(GetCompact(t)) == Truncate(t)
  {
    hide GetCompact, SetCompact;
    SmallEncoding(t);
    assert Pow256(0) == 1 && Pow256(1) == 0x100 && Pow256(2) == 0x1_0000 && Pow256(3) == 0x100_0000;
    if t == 0 {
      Decoded(0, 0);
    } else if t < 0x80 {
      Decoded(1, t * 0x1_0000);
    } else if t < 0x8000 {
      Decoded(2, t * 0x100);
    } else if t < SIGN {
      Decoded(3, t);
    } else {
      Decoded(4, t / 256);
    }
  }

  /** The format is a greatest-lower-bound projection: decoding the encoding of t gives
      the largest number not above t that any compact number denotes. */
  lemma GreatestLowerBound(t: Hash, c: uint32)
    ensures SetCompact(GetCompact(t)) <= t
    ensures SetCompact(c) <= t ==> SetCompact(c) <= SetCompact(GetCompact(t))
  {
    hide GetCompact, SetCompact, Representable;
    RoundTrip(t);
    SetCompactRepresentable(c);
    if SetCompact(c) <= t {
      TruncateIsGreatest(SetCompact(c), t);
    }
  }

  lemma RoundingMonotone(t: Hash, u: Hash)
    requires t <= u
    ensures SetCompact(GetCompact(t)) <= SetCompact(GetCompact(u))
  {
    hide GetCompact, SetCompact;
    GreatestLowerBound(t, 0);
    GreatestLowerBound(u, GetCompact(t));
  }

  lemma RoundingLoss(t: Hash)
    requires t > 0
    ensures (t - SetCompact(GetCompact(t))) * 0x8000 < t
  {
    hide GetCompact, SetCompact;
    RoundTrip(t);
    if t >= SIGN {
      TruncateLoss(t);
    }
  }

  /** Encoding the rounded number gives the same compact number. */
  lemma {:induction false} EncodingStable(t: Hash)
    ensures GetCompact(SetCompact(GetCompact(t))) == GetCompact(t)
  {
    hide GetCompact, SetCompact;
    RoundTrip(t);
    StableTruncate(t);
  }

  lemma {:induction false} StableTruncate(t: Hash)
    ensures GetCompact(Truncate(t)) == GetCompact(t)
  {
    hide GetCompact;
    if t < SIGN {
    } else if t < 0x100_0000 {
      StableSmall(t);
    } else {
      StableTruncate(t / 256);
      TruncateIsGreatest(0x100_0000, t);
      GetCompactStep(t);
      GetCompactStep(Truncate(t));
    }
  }

  lemma StableSmall(t: Hash)
    requires SIGN <= t < 0x100_0000
    ensures GetCompact(Truncate(t)) == GetCompact(t)
  {
    assert Truncate(t) == 256 * (t / 256);
    SmallLength(t);
    SmallLength(256 * (t / 256));
  }

  // ------------------------------------------------------------ proof of work

  predicate CheckProofOfWork(hash: Hash, bits: uint32) {
    SetCompact(bits) != 0 && hash <= SetCompact(bits)
  }

  /** chainWorkOfTarget as the shift-and-subtract loop computes it: 2^256 / (target + 1),
      except where the addition wraps, the quotient does not fit, or a bit is lost. */
  function ChainWorkOfTarget(target: Hash): Hash {
    if target == 0 then TWO_256 - 1
    else if target >= TWO_256 / 2 then 0
    else TWO_256 / (target + 1)
  }

  /** The work is the documented quotient if and only if 1 <= target < 2^255. */
  lemma WorkIsQuotient(target: Hash)
    ensures ChainWorkOfTarget(target) == TWO_256 / (target + 1) <==> 1 <= target < TWO_256 / 2
  {
    if target >= TWO_256 / 2 {
      DivUnique(TWO_256, target + 1, 1, TWO_256 - (target + 1));
    }
  }

  lemma WorkAntitone(t: Hash, u: Hash)
    requires t <= u
    ensures ChainWorkOfTarget(u) <= ChainWorkOfTarget(t)
  {
    if 0 < t && u < TWO_256 / 2 {
      QuotientAntitone(TWO_256, t + 1, u + 1);
    } else if t == 0 < u < TWO_256 / 2 {
      QuotientAntitone(TWO_256, 2, u + 1);
    }
  }

  lemma QuotientAntitone(n: nat, a: nat, b: nat)
    requires 0 < a <= b
    ensures n / b <= n / a
  {
    var q := n / b;
    assert n == b * q + n % b;
    if n / a < q {
      MulMono(q, a, b);
      MulMono(a, n / a + 1, q);
    }
  }

  function BlockWork(bits: uint32): Hash {
    ChainWorkOfTarget(SetCompact(bits))
  }

  // ------------------------------------------------------------ retarget

  function ClampTime(actual: int, params: Params): int {
    var low := if actual < params.targetBlockTime / 4 then params.targetBlockTime / 4 else actual;
    var expected := params.targetBlockTime * params.difficultyInterval;
    if low > expected * params.maxAdjustment then expected * params.maxAdjustment else low
  }

  /** What an interval should take. */
  function IntervalTime(params: Params): (t: nat)
    requires params.targetBlockTime > 0 && params.difficultyInterval > 0
    ensures t > 0
  {
    MulMono(params.targetBlockTime, 1, params.difficultyInterval);
    params.targetBlockTime * params.difficultyInterval
  }

  function NextTarget(lastTime: int, firstTime: int, lastBits: uint32, params: Params): Hash
    requires params.targetBlockTime > 0 && params.difficultyInterval > 0 && params.maxAdjustment > 0
  {
    var product: Hash := SetCompact(lastBits) * ClampTime(lastTime - firstTime, params) % TWO_256;
    var quotient := Quotient(product, IntervalTime(params));
    var limit := SetCompact(params.minDifficultyBits);
    if quotient > limit then limit else quotient
  }

  /** The parameters every network has. */
  predicate SaneParams(params: Params) {
    params.targetBlockTime > 0 && params.difficultyInterval > 0 && params.maxAdjustment > 0
  }

  function GetNextWorkRequired(lastTime: int64, lastHeight: nat, lastBits: uint32, firstTime: int64,
                               params: Params): uint32
    requires SaneParams(params)
  {
    if params.powNoRetarget || (lastHeight + 1) % params.difficultyInterval != 0 then lastBits
    else GetCompact(NextTarget(lastTime, firstTime, lastBits, params))
  }

  /** Mainnet and testnet: ten-minute blocks, 2016-block intervals, factor four. */
  predicate RetargetingNetwork(params: Params) {
    params.targetBlockTime == 600 && params.difficultyInterval == 2016 && params.maxAdjustment == 4
    && !params.powNoRetarget && params.minDifficultyBits == 0x1d00_ffff
  }

  lemma MaxTargetValue()
    ensures SetCompact(0x1d00_ffff) == 0xffff * Pow256(26) && Pow256(26) * 0x1_0000_0000_0000 == TWO_256
  {
    Pow256Values();
    assert Pow256(6) == 0x1_0000_0000_0000;
    Pow256Add(26, 6);
    assert 0xffff * Pow256(26) < TWO_256;
  }

  const EXPECTED_TIME: nat := 1_209_600

  /** The quotient before it is limited, when nothing is truncated. */
  lemma RetargetQuotient(lastTime: int, firstTime: int, lastBits: uint32, params: Params)
    requires RetargetingNetwork(params) && SetCompact(lastBits) <= SetCompact(params.minDifficultyBits)
    ensures var t := ClampTime(lastTime - firstTime, params);
            150 <= t <= 4 * EXPECTED_TIME
            && SetCompact(lastBits) * t < TWO_256
            && (var q := SetCompact(lastBits) * t / EXPECTED_TIME;
                NextTarget(lastTime, firstTime, lastBits, params) ==
                if q > SetCompact(params.minDifficultyBits) then SetCompact(params.minDifficultyBits) else q)
  {
    hide SetCompact, Pow256;
    var t := ClampTime(lastTime - firstTime, params);
    assert 150 <= t <= 4 * EXPECTED_TIME;
    hide ClampTime;
    MaxTargetValue();
    var target := SetCompact(lastBits);
    MulMono(target, t, 0x80_0000);
    assert target * 0x80_0000 < TWO_256;
  }

  /** Elapsed time held between 150 seconds and eight weeks. */
  function HeldTime(elapsed: int): nat {
    if elapsed < 150 then 150 else if elapsed > 4_838_400 then 4_838_400 else elapsed
  }

  /** The retarget in numbers: elapsed time held between 150 seconds and eight weeks, over
      two weeks, and the maximum. */
  lemma RetargetExact(lastTime: int64, lastHeight: nat, lastBits: uint32, firstTime: int64, params: Params)
    requires RetargetingNetwork(params) && SetCompact(lastBits) <= SetCompact(params.minDifficultyBits)
    ensures var last, limit := SetCompact(lastBits), SetCompact(params.minDifficultyBits);
            var q := Quotient(last * HeldTime(lastTime - firstTime), 1_209_600);
            SetCompact(GetNextWorkRequired(lastTime, lastHeight, lastBits, firstTime, params))
            == if (lastHeight + 1) % 2016 != 0 then last else Truncate(if q > limit then limit else q)
  {
    hide SetCompact, GetCompact, NextTarget, ClampTime, HeldTime;
    RetargetQuotient(lastTime, firstTime, lastBits, params);
    RoundTrip(NextTarget(lastTime, firstTime, lastBits, params));
    ClampIs(lastTime - firstTime, params);
  }

  lemma ClampIs(elapsed: int, params: Params)
    requires RetargetingNetwork(params)
    ensures ClampTime(elapsed, params) == HeldTime(elapsed)
  {
  }

  lemma QuotientMonotone(a: nat, b: nat, d: nat)
    requires a <= b && d > 0
    ensures a / d <= b / d
  {
    if b / d < a / d {
      MulMono(d, b / d + 1, a / d);
    }
  }

  /** The retarget bound on mainnet and testnet, for any times: the product is never
      truncated; the decoded new target is at most four times the old one and at most
      the network maximum, and at least the rounding of an 8064th of the old one. */
  lemma RetargetBound(lastTime: int64, lastHeight: nat, lastBits: uint32, firstTime: int64, params: Params)
    requires RetargetingNetwork(params) && (lastHeight + 1) % params.difficultyInterval == 0
    requires SetCompact(lastBits) <= SetCompact(params.minDifficultyBits)
    ensures var last := SetCompact(lastBits);
            var next := SetCompact(GetNextWorkRequired(lastTime, lastHeight, lastBits, firstTime, params));
            last * ClampTime(lastTime - firstTime, params) < TWO_256
            && next <= 4 * last && next <= SetCompact(params.minDifficultyBits)
            && SetCompact(GetCompact(last / 8064)) <= next
  {
    hide SetCompact, GetCompact, NextTarget;
    var last := SetCompact(lastBits);
    var t := ClampTime(lastTime - firstTime, params);
    RetargetQuotient(lastTime, firstTime, lastBits, params);
    var q := last * t / EXPECTED_TIME;
    assert q <= 4 * last by {
      MulMono(last, t, 4 * EXPECTED_TIME);
      QuotientMonotone(last * t, 4 * last * EXPECTED_TIME, EXPECTED_TIME);
      DivUnique(4 * last * EXPECTED_TIME, EXPECTED_TIME, 4 * last, 0);
    }
    assert last / 8064 <= q by {
      MulMono(last, 150, t);
      QuotientMonotone(last * 150, last * t, EXPECTED_TIME);
      assert last * 150 / EXPECTED_TIME == last / 8064;
    }
    var next := NextTarget(lastTime, firstTime, lastBits, params);
    GreatestLowerBound(next, 0);
    RoundingMonotone(last / 8064, next);
  }

  /** A longer interval never gives a harder target. */
  lemma RetargetMonotone(lastTime: int64, firstTime: int64, lastTime': int64, firstTime': int64,
                         lastHeight: nat, lastBits: uint32, params: Params)
    requires RetargetingNetwork(params)
    requires SetCompact(lastBits) <= SetCompact(params.minDifficultyBits)
    requires lastTime - firstTime <= lastTime' - firstTime'
    ensures SetCompact(GetNextWorkRequired(lastTime, lastHeight, lastBits, firstTime, params))
         <= SetCompact(GetNextWorkRequired(lastTime', lastHeight, lastBits, firstTime', params))
  {
    hide SetCompact, GetCompact, NextTarget;
    if (lastHeight + 1) % params.difficultyInterval == 0 {
      RetargetQuotient(lastTime, firstTime, lastBits, params);
      RetargetQuotient(lastTime', firstTime', lastBits, params);
      var last := SetCompact(lastBits);
      var t, t' := ClampTime(lastTime - firstTime, params), ClampTime(lastTime' - firstTime', params);
      MulMono(last, t, t');
      QuotientMonotone(last * t, last * t', EXPECTED_TIME);
      RoundingMonotone(NextTarget(lastTime, firstTime, lastBits, params),
                       NextTarget(lastTime', firstTime', lastBits, params));
    }
  }

  /** The target for no elapsed time. */
  function AfterNoTime(target: Hash, limit: Hash): Hash {
    if target <= limit then Quotient(target, 8064)
    else
      var quotient := Quotient(target * 150 % TWO_256, EXPECTED_TIME);
      if quotient > limit then limit else quotient
  }

  /** With no time elapsed a target within the maximum is divided by 8064; one above it loses
      the high bits of the product and is limited. */
  lemma NoTimeElapsed(time: int64, lastHeight: nat, lastBits: uint32, params: Params)
    requires RetargetingNetwork(params) && (lastHeight + 1) % params.difficultyInterval == 0
    ensures GetNextWorkRequired(time, lastHeight, lastBits, time, params)
         == GetCompact(AfterNoTime(SetCompact(lastBits), SetCompact(params.minDifficultyBits)))
  {
    hide SetCompact, GetCompact;
    var last, limit := SetCompact(lastBits), SetCompact(params.minDifficultyBits);
    assert ClampTime(time - time, params) == 150;
    if last <= limit {
      RetargetQuotient(time, time, lastBits, params);
      assert last * 150 / EXPECTED_TIME == last / 8064;
      SmallQuotient(last, 8064);
    }
  }
}
