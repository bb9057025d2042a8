/** How far a chain that only grows can get: every retarget divides the target by 8064, so
    after eighteen of them no hash meets it.
 */
module Retarget {
  import opened Types
  import opened WireFormat
  import opened Chain
  import opened Runs
  import Arith
  import Compact
  import Ledger

  const INTERVAL: nat := 2016

  // ------------------------------------------------------------ dividing by 8064

  /** A target after r divisions. */
  function Divided(t: nat, r: nat): nat {
    if r == 0 then t else Divided(t, r - 1) / 8064
  }

  lemma {:induction false} DividedSmaller(t: nat, r: nat)
    ensures Divided(t, r) <= t
    decreases r
  {
    if r != 0 {
      DividedSmaller(t, r - 1);
    }
  }

  lemma TwoRetargets(t: nat, r: nat, k: nat)
    requires Divided(t, r) < 0x200_0000 * k
    ensures Divided(t, r + 2) < k
  {
    assert Divided(t, r + 2) == Divided(t, r) / 8064 / 8064;
    Arith.DivDiv(Divided(t, r), 8064, 8064);
  }

  /** Eighteen divisions leave nothing of a 224-bit target. */
  lemma NothingLeft(t: nat)
    requires t < 0x1_0000_0000 * 0x1000000000000000000000000000000000000000000000000
    ensures Divided(t, 18) == 0
  {
    hide Divided;
    assert Divided(t, 0) == t by { NoDivision(t); }
    TwoRetargets(t, 0, 0x100000000000000000000000000000000000000000000000000);
    TwoRetargets(t, 2, 0x80000000000000000000000000000000000000000000);
    TwoRetargets(t, 4, 0x40000000000000000000000000000000000000);
    TwoRetargets(t, 6, 0x20000000000000000000000000000000);
    TwoRetargets(t, 8, 0x10000000000000000000000000);
    TwoRetargets(t, 10, 0x8000000000000000000);
    TwoRetargets(t, 12, 0x4000000000000);
    TwoRetargets(t, 14, 0x2000000);
    TwoRetargets(t, 16, 0x1);
  }

  lemma NoDivision(t: nat)
    ensures Divided(t, 0) == t
  {
  }

  lemma {:induction false} DividedAway(t: nat, r: nat)
    requires t < 0x1_0000_0000 * 0x1000000000000000000000000000000000000000000000000 && r >= 18
    ensures Divided(t, r) == 0
    decreases r
  {
    if r == 18 {
      NothingLeft(t);
    } else {
      DividedAway(t, r - 1);
    }
  }

  // ------------------------------------------------------------ the tip's target

  /** The number of retargets that divide: all of them when the genesis target is within the
      maximum, all but the first otherwise. */
  function Spare(params: Params, g: Block): nat {
    if Compact.SetCompact(g.header.bits) <= Compact.SetCompact(params.minDifficultyBits) then 0 else 1
  }

  /** A block at this height has at most this target. */
  predicate Limited(params: Params, spare: nat, bits: uint32, height: nat) {
    height / INTERVAL >= spare ==>
      Compact.SetCompact(bits) <= Divided(Compact.SetCompact(params.minDifficultyBits), height / INTERVAL - spare)
  }

  lemma NextLimited(params: Params, spare: nat, time: int64, bits: uint32, height: nat)
    requires Compact.RetargetingNetwork(params) && spare <= 1 && Limited(params, spare, bits, height)
    ensures Limited(params, spare, Compact.GetNextWorkRequired(time, height, bits, time, params), height + 1)
  {
    hide Compact.SetCompact, Compact.GetCompact, Divided;
    if (height + 1) % INTERVAL == 0 {
      var last, limit := Compact.SetCompact(bits), Compact.SetCompact(params.minDifficultyBits);
      Compact.NoTimeElapsed(time, height, bits, params);
      Compact.GreatestLowerBound(Compact.AfterNoTime(last, limit), 0);
      var r := height / INTERVAL;
      assert (height + 1) / INTERVAL == r + 1;
      if r >= spare {
        DividedSmaller(limit, r - spare);
        OneRetarget(limit, r - spare, last);
      } else {
        NoDivision(limit);
      }
    }
  }

  lemma OneRetarget(t: nat, r: nat, last: nat)
    requires last <= Divided(t, r)
    ensures last / 8064 <= Divided(t, r + 1)
  {
  }

  /** What a run without reorganisations keeps. */
  predicate TipLimited(params: Params, spare: nat, s: State) {
    && s.tipHash in s.blocks && Limited(params, spare, s.blocks[s.tipHash].header.bits, s.height)
    && s.saved.tipHash == s.tipHash && s.saved.height == s.height
  }

  ghost predicate NeverReorganises(c: Crypto, params: Params, g: Block, events: seq<Event>)
    requires Compact.SaneParams(params) && GenesisState(c, g).Some?
  {
    forall k :: 0 <= k < |events| && events[k].Deliver? ==>
      !TryAccept(c, params, Run(c, params, g, events[..k]), events[k].blk).1.Reorganised?
  }

  lemma ExtensionLimited(c: Crypto, params: Params, g: Hash, s: State, spare: nat, blk: Block)
    requires Compact.RetargetingNetwork(params) && spare <= 1 && Inv(c, params, g, s) && TipLimited(params, spare, s)
    requires TryAccept(c, params, s, blk).1.Extended?
    ensures TipLimited(params, spare, TryAccept(c, params, s, blk).0)
    ensures Compact.SetCompact(blk.header.bits) != 0
  {
    hide Inv, Limited, Compact.GetNextWorkRequired, Compact.SetCompact, ExpectedBits, Ledger.ConnectBlock, HeaderHash,
         Compact.BlockWork, AddWork, HeadersOk, Replay, ForkChain;
    NextBits(c, params, g, s);
    ActiveTip(c, params, g, s);
    var tip := s.blocks[s.tipHash].header;
    NextLimited(params, spare, tip.timestamp, tip.bits, s.height);
    SameInside(params, s.height, tip);
  }

  lemma SameInside(params: Params, height: nat, tip: BlockHeader)
    requires Compact.SaneParams(params)
    ensures params.powNoRetarget || (height + 1) % params.difficultyInterval != 0
            ==> Compact.GetNextWorkRequired(tip.timestamp, height, tip.bits, tip.timestamp, params) == tip.bits
  {
    hide Compact.NextTarget, Compact.GetCompact;
  }

  lemma {:induction false} RunLimited(c: Crypto, params: Params, g: Block, events: seq<Event>)
    requires Compact.RetargetingNetwork(params) && GenesisState(c, g).Some?
    requires NeverReorganises(c, params, g, events)
    ensures TipLimited(params, Spare(params, g), Run(c, params, g, events))
  {
    hide Inv, TryAccept, Restarted, HeaderHash, GenesisState, Limited;
    GenesisLimited(c, params, g);
    if events != [] {
      var init, e := events[..|events| - 1], events[|events| - 1];
      assert NeverReorganises(c, params, g, init) by {
        assert forall k :: 0 <= k < |init| ==> init[..k] == events[..k];
      }
      RunLimited(c, params, g, init);
      var s := Run(c, params, g, init);
      RunInv(c, params, g, init);
      match e
      case Deliver(blk) =>
        assert !TryAccept(c, params, s, blk).1.Reorganised?;
        RejectionIsAtomic(c, params, s, blk);
        if TryAccept(c, params, s, blk).1.Extended? {
          ExtensionLimited(c, params, BlockHash(c, g), s, Spare(params, g), blk);
        }
      case Restart =>
        RestartKeepsInv(c, params, g, s);
    }
  }

  lemma GenesisLimited(c: Crypto, params: Params, g: Block)
    requires GenesisState(c, g).Some?
    ensures TipLimited(params, Spare(params, g), GenesisState(c, g).value)
  {
    hide Compact.SetCompact, HeaderHash, Ledger.ConnectBlock, Compact.BlockWork;
  }

  // ------------------------------------------------------------ the end

  lemma MaximumIsSmall(params: Params)
    requires Compact.RetargetingNetwork(params)
    ensures Compact.SetCompact(params.minDifficultyBits) < 0x1_0000_0000 * 0x1000000000000000000000000000000000000000000000000
  {
    hide Compact.SetCompact;
    Compact.MaxTargetValue();
  }

  /** Every block above genesis was accepted with a target some hash can meet. */
  lemma TipHasWork(c: Crypto, params: Params, g: Hash, s: State)
    requires Inv(c, params, g, s) && s.height > 0
    ensures s.tipHash in s.blocks && Compact.SetCompact(s.blocks[s.tipHash].header.bits) != 0
  {
    hide Compact.SetCompact, HeaderHash, Replay, IndexOk;
    assert LinkOk(c, params, s.index, s.blocks, s.byHeight, s.height);
  }

  /** On mainnet and testnet the active chain of a node that only ever extends it, through any
      deliveries and restarts, ends within eighteen intervals of 2016 blocks, or nineteen if
      the genesis target is above the maximum: the next block would have to meet target 0. */
  lemma {:induction false} ChainEnds(c: Crypto, params: Params, g: Block, events: seq<Event>)
    requires Compact.RetargetingNetwork(params) && GenesisState(c, g).Some?
    requires NeverReorganises(c, params, g, events)
    ensures Run(c, params, g, events).height < (18 + Spare(params, g)) * INTERVAL
  {
    hide Inv, TryAccept, Restarted, GenesisState, HeaderHash, Compact.SetCompact, Limited, Spare, Run, Divided;
    RunLimited(c, params, g, events);
    RunInv(c, params, g, events);
    var s := Run(c, params, g, events);
    if s.height > 0 {
      TipHasWork(c, params, BlockHash(c, g), s);
      MaximumIsSmall(params);
      HighMeansZero(params, Spare(params, g), s.blocks[s.tipHash].header.bits, s.height);
    }
  }

  lemma HighMeansZero(params: Params, spare: nat, bits: uint32, height: nat)
    requires Limited(params, spare, bits, height) && Compact.SetCompact(bits) != 0
    requires Compact.SetCompact(params.minDifficultyBits) < 0x1_0000_0000 * 0x1000000000000000000000000000000000000000000000000
    ensures height < (18 + spare) * INTERVAL
  {
    hide Compact.SetCompact, Divided;
    if height >= (18 + spare) * INTERVAL {
      DividedAway(Compact.SetCompact(params.minDifficultyBits), height / INTERVAL - spare);
    }
  }
}
