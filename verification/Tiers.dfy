/** The four validator tiers. */
module Tiers {

  datatype Tier = Bronze | Silver | Gold | Platinum
  {
    function MinStake(): nat {
      match this
      case Bronze => 10_000
      case Silver => 50_000
      case Gold => 100_000
      case Platinum => 500_000
    }

    /** Position in the declared order, which comparisons follow. */
    function Rank(): nat {
      match this
      case Bronze => 0
      case Silver => 1
      case Gold => 2
      case Platinum => 3
    }

    /** Voting multipliers are halves: 0.5, 1.0, 1.5 and 2.0. */
    function VotingHalves(): nat {
      Rank() + 1
    }
  }

  /** The highest tier the stake pays for; stake below every minimum still counts as Bronze. */
  function FromStake(stake: nat): (tier: Tier)
    ensures tier == Bronze || tier.MinStake() <= stake
    ensures forall t: Tier :: t.MinStake() <= stake ==> t.Rank() <= tier.Rank()
  {
    if stake >= Platinum.MinStake() then Platinum
    else if stake >= Gold.MinStake() then Gold
    else if stake >= Silver.MinStake() then Silver
    else Bronze
  }

  /** Stake times multiplier, truncated to an integer. */
  function VotingPower(tier: Tier, stake: nat): nat {
    stake * tier.VotingHalves() / 2
  }

  /** The voting power of every stake: half, full, one and a half times, and double. */
  lemma VotingPowerExactly(stake: nat)
    ensures VotingPower(FromStake(stake), stake) ==
            if stake < 50_000 then stake / 2
            else if stake < 100_000 then stake
            else if stake < 500_000 then stake * 3 / 2
            else stake * 2
  {
  }

  /** More stake never means less voting power, tier changes included. */
  lemma VotingPowerMonotone(less: nat, more: nat)
    requires less <= more
    ensures VotingPower(FromStake(less), less) <= VotingPower(FromStake(more), more)
  {
    var a, b := FromStake(less).VotingHalves(), FromStake(more).VotingHalves();
    assert a <= b by {
      if FromStake(less) != Bronze { assert FromStake(less).MinStake() <= more; }
    }
    MulMonotone(less, more, a, b);
  }

  lemma MulMonotone(x: nat, y: nat, a: nat, b: nat)
    requires x <= y && a <= b
    ensures x * a <= y * b
  {
    assert x * a <= y * a;
    assert y * a <= y * b;
  }
}
