/** Block subsidies and the supply they add up to. */
module Rewards {
  import opened Arith
  import opened Types

  const INITIAL_BLOCK_REWARD: int64 := 50 * COIN
  const HALVING_INTERVAL: int64 := 210_000

  /** INITIAL_BLOCK_REWARD shifted right once per halving; nothing from the 64th on.
      The source divides with truncation, so the heights -209999..-1 count as epoch 0
      and lower ones shift by a negative count; the node only asks for real heights.
   */
  function Subsidy(height: nat): (r: int64)
    ensures 0 <= r <= INITIAL_BLOCK_REWARD
  {
    if height / HALVING_INTERVAL >= 64 then 0
    else EpochReward(height / HALVING_INTERVAL)
  }

  function EpochReward(k: nat): (r: int64)
    ensures 0 <= r <= INITIAL_BLOCK_REWARD
  {
    Quotient(INITIAL_BLOCK_REWARD, Pow2(k))
  }

  /** The simple form: subsidies added block by block. */
  function SupplyBefore(height: nat): (s: nat) {
    if height == 0 then 0 else SupplyBefore(height - 1) + Subsidy(height - 1)
  }

  predicate CoinbaseValueValid(value: int, subsidy: int, fees: int) {
    value <= subsidy + fees
  }

  /** Rewards of the first k epochs, one block each. */
  function EpochSum(k: nat): (s: nat) {
    if k == 0 then 0 else EpochSum(k - 1) + EpochReward(k - 1)
  }

  lemma EpochRewardHalves(k: nat)
    ensures EpochReward(k + 1) == EpochReward(k) / 2
  {
    var p := Pow2(k);
    var q, r := INITIAL_BLOCK_REWARD / p, INITIAL_BLOCK_REWARD % p;
    var h, b := q / 2, q % 2;
    assert INITIAL_BLOCK_REWARD == p * q + r;
    assert p * (2 * h + b) == (2 * p) * h + p * b;
    DivUnique(INITIAL_BLOCK_REWARD, 2 * p, h, p * b + r);
  }

  /** The schedule in numbers: 50 coins, halved and rounded down every 210,000 blocks. */
  lemma SubsidySchedule(height: nat)
    ensures Subsidy(height) == if height < 13_440_000 then 5_000_000_000 / Pow2(height / 210_000) else 0
  {
    assert height < 13_440_000 <==> height / 210_000 < 64;
  }

  /** The number of ones in binary. */
  function Ones(n: nat): nat {
    if n == 0 then 0 else n % 2 + Ones(n / 2)
  }

  /** What rounding costs, exactly: k epochs and twice the next reward fall short of twice
      the first reward by the ones that were shifted out. */
  lemma {:induction false} EpochSumExact(k: nat)
    ensures EpochSum(k) + 2 * EpochReward(k) - Ones(EpochReward(k)) == 2 * 5_000_000_000 - Ones(5_000_000_000)
  {
    hide EpochReward, Ones;
    if k == 0 {
      assert EpochReward(0) == 5_000_000_000 by { FirstReward(); }
    } else {
      EpochSumExact(k - 1);
      EpochRewardHalves(k - 1);
      LowestBit(EpochReward(k - 1));
    }
  }

  lemma LowestBit(n: nat)
    ensures Ones(n) == n % 2 + Ones(n / 2)
  {
  }

  lemma FirstReward()
    ensures EpochReward(0) == 5_000_000_000
  {
  }

  /** The final supply: 2310 base units short of 21 million coins, reached at height
      6,930,000 and not before. */
  lemma FinalSupply(height: nat)
    ensures SupplyBefore(height) <= 2_099_999_997_690_000
    ensures SupplyBefore(height) == 2_099_999_997_690_000 <==> height >= 6_930_000
  {
    hide Subsidy, EpochReward, SupplyBefore, EpochSum, Ones;
    var end := 33 * HALVING_INTERVAL;
    assert SupplyBefore(end) == 2_099_999_997_690_000 by {
      EpochSumExact(33);
      EpochReward33();
      OnesOfReward();
      SupplyOfEpochs(33);
    }
    EpochStart(33);
    EpochReward33();
    if height >= end {
      NoSubsidyAfter(end, height);
    } else {
      SupplyMonotone(height, end - 1);
      LastSubsidy(end);
    }
  }

  lemma OnesOfReward()
    ensures Ones(5_000_000_000) == 11 && Ones(0) == 0
  {
    hide Ones;
    NoOnes();
    OctalDigit(0, 4);
    OctalDigit(4, 5);
    OctalDigit(37, 2);
    OctalDigit(298, 0);
    OctalDigit(2_384, 1);
    OctalDigit(19_073, 3);
    OctalDigit(152_587, 7);
    OctalDigit(1_220_703, 1);
    OctalDigit(9_765_625, 0);
    OctalDigit(78_125_000, 0);
    OctalDigit(625_000_000, 0);
  }

  lemma NoOnes()
    ensures Ones(0) == 0
  {
  }

  lemma OctalDigit(n: nat, d: nat)
    requires d < 8
    ensures Ones(8 * n + d) == Ones(n) + d % 2 + d / 2 % 2 + d / 4
  {
    hide Ones;
    LowestBit(8 * n + d);
    LowestBit(4 * n + d / 2);
    LowestBit(2 * n + d / 4);
  }

  /** The last block that pays anything pays one base unit. */
  lemma LastSubsidy(end: nat)
    requires end == 33 * HALVING_INTERVAL
    ensures SupplyBefore(end) == SupplyBefore(end - 1) + 1
  {
    assert Pow2(8) == 256 && Pow2(16) == 0x1_0000 && Pow2(24) == 0x100_0000 && Pow2(32) == 0x1_0000_0000;
    assert (end - 1) / HALVING_INTERVAL == 32;
    assert Subsidy(end - 1) == 1;
  }

  /** The geometric bound: k epochs and twice the next reward never exceed twice the first. */
  lemma {:induction false} EpochSumBound(k: nat)
    ensures EpochSum(k) + 2 * EpochReward(k) <= 2 * INITIAL_BLOCK_REWARD
  {
    if k != 0 {
      EpochSumBound(k - 1);
      EpochRewardHalves(k - 1);
    }
  }

  lemma EpochReward33()
    ensures EpochReward(33) == 0
  {
    assert Pow2(11) == 2048;
    assert Pow2(22) == 4_194_304;
    assert Pow2(33) == 8_589_934_592;
  }

  lemma {:induction false} EpochRewardVanishes(k: nat)
    requires k >= 33
    ensures EpochReward(k) == 0
  {
    if k == 33 {
      EpochReward33();
    } else {
      EpochRewardVanishes(k - 1);
      EpochRewardHalves(k - 1);
    }
  }

  lemma SameEpoch(a: nat, b: nat)
    requires a <= b < (a / HALVING_INTERVAL + 1) * HALVING_INTERVAL
    ensures b / HALVING_INTERVAL == a / HALVING_INTERVAL && Subsidy(b) == Subsidy(a)
  {
  }

  /** Within one epoch every block adds the same reward. */
  lemma {:induction false} SupplyWithinEpoch(from: nat, to: nat)
    requires from <= to <= (from / HALVING_INTERVAL + 1) * HALVING_INTERVAL
    ensures SupplyBefore(to) == SupplyBefore(from) + Subsidy(from) * (to - from)
  {
    hide Subsidy;
    var s, n := Subsidy(from), to - from;
    if n > 0 {
      SupplyWithinEpoch(from, to - 1);
      SameEpoch(from, to - 1);
      assert s * (n - 1) + s == s * n;
    }
  }

  lemma {:induction false} SupplyOfEpochs(k: nat)
    ensures SupplyBefore(k * HALVING_INTERVAL) == HALVING_INTERVAL * EpochSum(k)
  {
    hide Subsidy, EpochReward;
    if k != 0 {
      SupplyOfEpochs(k - 1);
      var from := (k - 1) * HALVING_INTERVAL;
      EpochStart(k - 1);
      SupplyWithinEpoch(from, from + HALVING_INTERVAL);
    }
  }

  lemma EpochStart(k: nat)
    ensures k * HALVING_INTERVAL / HALVING_INTERVAL == k
    ensures Subsidy(k * HALVING_INTERVAL) == EpochReward(k)
  {
    hide EpochReward;
    if k >= 64 {
      EpochRewardVanishes(k);
    }
  }

  lemma {:induction false} SupplyMonotone(a: nat, b: nat)
    requires a <= b
    ensures SupplyBefore(a) <= SupplyBefore(b)
  {
    if a < b {
      SupplyMonotone(a, b - 1);
    }
  }

  /** The supply cap: at no height do the subsidies exceed 21 million coins. */
  lemma SupplyCap(height: nat)
    ensures SupplyBefore(height) <= MAX_MONEY
  {
    var k := height / HALVING_INTERVAL + 1;
    SupplyMonotone(height, k * HALVING_INTERVAL);
    SupplyOfEpochs(k);
    EpochSumBound(k);
  }

  lemma {:induction false} NoSubsidyAfter(from: nat, to: nat)
    requires from <= to && Subsidy(from) == 0
    ensures SupplyBefore(to) == SupplyBefore(from)
  {
    if from < to {
      NoSubsidyAfter(from, to - 1);
      var a, b := from / HALVING_INTERVAL, (to - 1) / HALVING_INTERVAL;
      if b < 64 {
        RewardStaysZero(a, b);
      }
    }
  }

  lemma {:induction false} RewardStaysZero(a: nat, b: nat)
    requires a <= b && EpochReward(a) == 0
    ensures EpochReward(b) == 0
  {
    if a < b {
      RewardStaysZero(a, b - 1);
      EpochRewardHalves(b - 1);
    }
  }

  /** The fast form, epoch by epoch with an early exit, for every 64-bit height: it
      returns the block-by-block sum, and no 64-bit operation in it overflows. */
  method GetCumulativeSupplyAt(height: int64) returns (total: int64)
    ensures total == if height < 0 then 0 else SupplyBefore(height)
    ensures 0 <= total <= MAX_MONEY
  {
    hide Subsidy, SupplyBefore;
    total := 0;
    var h: int64 := 0;
    assert SupplyBefore(0) == 0 by { SupplyOfEpochs(0); }
    while h < height
      invariant 0 <= h && (if height < 0 then h == 0 else h <= height)
      invariant total == SupplyBefore(h)
    {
      var subsidy := Subsidy(h);
      if subsidy == 0 {
        NoSubsidyAfter(h, height);
        break;
      }
      SubsidyEnds(h);
      var intervalEnd: int64 := (h / HALVING_INTERVAL + 1) * HALVING_INTERVAL;
      var end := if intervalEnd < height then intervalEnd else height;
      SupplyWithinEpoch(h, end);
      SupplyCap(end);
      total := total + subsidy * (end - h);
      h := end;
    }
    SupplyCap(if height < 0 then 0 else height);
  }

  lemma SubsidyEnds(h: nat)
    requires Subsidy(h) > 0
    ensures h / HALVING_INTERVAL < 33
  {
    var k := h / HALVING_INTERVAL;
    if k >= 33 {
      EpochRewardVanishes(k);
    }
  }
}
