/** The mutable stake ledger. */
module Staking {
  import opened Wrappers
  import opened Collections
  import opened ByteStrings
  import opened Tiers
  import opened Quorum
  import opened UnbondingQueue
  import opened StakingSpec

  datatype Error = BelowMinimum | BadDigest | NoStakeFor | InsufficientStake | StakeRemains

  class ValidatorStake {
    const validator: ValidatorID
    var totalStake: nat
    var activeStake: nat
    var unbondingStake: nat
    var currentTier: Tier
    var deposits: seq<Deposit>
    var unstakingRequests: seq<Unstaking>
    var tierHistory: seq<TierChange>

    function State(): Stake
      reads this
    {
      Stake(validator, totalStake, activeStake, unbondingStake, currentTier, deposits, unstakingRequests, tierHistory)
    }

    ghost predicate Valid()
      reads this
    {
      StakeInv(State())
    }

    constructor (v: ValidatorID)
      ensures Valid() && State() == NewStake(v)
    {
      validator := v;
      totalStake, activeStake, unbondingStake, currentTier := 0, 0, 0, Bronze;
      deposits, unstakingRequests, tierHistory := [], [], [];
    }

    method UpdateTier(cycle: nat, now: nat) returns (event: Option<TierChange>)
      modifies this`currentTier, this`tierHistory
      ensures State() == Retiered(old(State()), cycle, now) && event == Retiering(old(State()), cycle, now)
    {
      var newTier := FromStake(activeStake);
      if newTier == currentTier { return None; }
      event := Some(TierChange(validator, currentTier, newTier, activeStake, now, cycle));
      currentTier := newTier;
      tierHistory := tierHistory + [event.value];
    }

    method AddDeposit(deposit: Deposit, cycle: nat, now: nat) returns (event: Option<TierChange>)
      requires Valid()
      modifies this
      ensures Valid() && State() == Retiered(Credited(old(State()), deposit), cycle, now)
      ensures event == Retiering(Credited(old(State()), deposit), cycle, now)
    {
      hide StakeInv, FromStake, Retiered, Retiering;
      DepositKeepsInv(State(), deposit, cycle, now);
      totalStake := totalStake + deposit.amount;
      activeStake := activeStake + deposit.amount;
      deposits := deposits + [deposit];
      event := UpdateTier(cycle, now);
    }

    method RequestUnstake(amount: nat, cycle: nat, now: nat)
      returns (r: Result<(Unstaking, Option<TierChange>), Error>)
      requires Valid()
      modifies this
      ensures Valid()
      ensures r.Err? <==> amount > old(activeStake)
      ensures r.Err? ==> r.error == InsufficientStake && State() == old(State())
      ensures r.Ok? ==> State() == Retiered(Unstaked(old(State()), amount, now), cycle, now) &&
                        r.value == (NewRequest(Claim(validator, amount), now),
                                    Retiering(Unstaked(old(State()), amount, now), cycle, now))
    {
      hide StakeInv, FromStake, Retiered, Retiering;
      if amount > activeStake { return Err(InsufficientStake); }
      UnstakeKeepsInv(State(), amount, cycle, now);
      var request := NewRequest(Claim(validator, amount), now);
      activeStake := activeStake - amount;
      unbondingStake := unbondingStake + amount;
      unstakingRequests := unstakingRequests + [request];
      var event := UpdateTier(cycle, now);
      r := Ok((request, event));
    }

    /** The subtractions inside the loop are on naturals: none of them can go below zero. */
    method ProcessUnbonding(now: nat) returns (completed: seq<Unstaking>)
      requires Valid()
      modifies this
      ensures Valid() && State() == Matured(old(State()), now)
      ensures completed == Ripened(old(unstakingRequests), now)
    {
      hide StakeInv, Scanned, Ripened, Waiting, Amounts, Uncompleted;
      ghost var s := State();
      MatureKeepsInv(s, now);
      ScanStart(s.requests, now);
      NothingReleased([]);
      completed := [];
      var i := 0;
      while i < |unstakingRequests|
        invariant i <= |s.requests|
        invariant Scanned(s.requests, unstakingRequests, completed, i, now)
        invariant unbondingStake + Amounts(completed) == s.unbonding && totalStake + Amounts(completed) == s.total
        invariant activeStake == s.active && currentTier == s.tier && deposits == s.deposits
        invariant tierHistory == s.tierHistory && |unstakingRequests| == |s.requests|
      {
        ScanOne(s.requests, unstakingRequests, completed, i, now);
        RipenedSoFar(s.requests, i + 1, now);
        if Ripe(unstakingRequests[i], now) {
          var request := Completed(unstakingRequests[i]);
          unstakingRequests := unstakingRequests[i := request];
          AmountsAppend(completed, request);
          unbondingStake := unbondingStake - request.claim.amount;
          totalStake := totalStake - request.claim.amount;
          completed := completed + [request];
        }
        i := i + 1;
      }
      ScanDone(s.requests, unstakingRequests, completed, now);
      unstakingRequests := Uncompleted(unstakingRequests);
      assert State() == Matured(s, now);
    }

    /** The recorded tier never lags behind the stake. */
    function EffectiveVotingPower(): (power: nat)
      requires Valid()
      reads this
      ensures power == VotingPower(FromStake(activeStake), activeStake)
    {
      VotingPower(currentTier, activeStake)
    }
  }

  lemma {:induction false} RipenedSoFar(queue: seq<Unstaking>, i: nat, now: nat)
    requires i <= |queue|
    ensures Amounts(Ripened(queue[..i], now)) <= Amounts(Ripened(queue, now))
    decreases |queue| - i
  {
    if i < |queue| {
      TakeOneMore(queue, i);
      AmountsScan(queue[..i], queue[i], now);
      RipenedSoFar(queue, i + 1, now);
    } else {
      TakeAll(queue);
    }
  }

  lemma NothingReleased(done: seq<Unstaking>)
    ensures done == [] ==> Amounts(done) == 0
  {
  }

  lemma {:induction false} AmountsSoFar(rs: seq<Unstaking>, i: nat)
    requires i <= |rs|
    ensures Amounts(rs[..i]) <= Amounts(rs)
    decreases |rs| - i
  {
    if i < |rs| {
      TakeOneMore(rs, i);
      AmountsAppend(rs[..i], rs[i]);
      AmountsSoFar(rs, i + 1);
    } else {
      TakeAll(rs);
    }
  }

  ghost function PaidSoFar(l: Ledger, now: nat, todo: set<ValidatorID>): map<ValidatorID, nat> {
    map v | v in l.stakes && v !in todo :: Payout(l.stakes[v], now)
  }

  ghost function QueuesOf(stakes: map<ValidatorID, Stake>): map<ValidatorID, seq<Unstaking>> {
    map v | v in stakes :: stakes[v].requests
  }

  /** All validators but `todo` have been processed. */
  ghost predicate Paying(l: Ledger, now: nat, todo: set<ValidatorID>, stakes: map<ValidatorID, Stake>, total: nat,
                         completed: map<ValidatorID, seq<Unstaking>>) {
    && todo <= l.stakes.Keys == stakes.Keys
    && (forall v :: v in l.stakes ==> stakes[v] == if v in todo then l.stakes[v] else Matured(l.stakes[v], now))
    && total + Total(PaidSoFar(l, now, todo)) == l.totalStaked
    && completed == Releases(QueuesOf(l.stakes), now, todo)
  }

  lemma PayStart(l: Ledger, now: nat)
    ensures Paying(l, now, l.stakes.Keys, l.stakes, l.totalStaked, map[])
  {
    assert PaidSoFar(l, now, l.stakes.Keys) == map[];
    ReleaseNone(QueuesOf(l.stakes), now);
    assert QueuesOf(l.stakes).Keys == l.stakes.Keys;
  }

  /** One more validator's payout is still covered by the recorded total. */
  lemma PayTotal(l: Ledger, now: nat, todo: set<ValidatorID>, v: ValidatorID)
    requires Inv(l) && v in todo && todo <= l.stakes.Keys
    ensures Total(PaidSoFar(l, now, todo - {v})) == Total(PaidSoFar(l, now, todo)) + Payout(l.stakes[v], now)
    ensures Total(PaidSoFar(l, now, todo - {v})) <= l.totalStaked
  {
    hide Inv, Payout;
    var before, after := PaidSoFar(l, now, todo), PaidSoFar(l, now, todo - {v});
    TotalUpdate(before, v, Payout(l.stakes[v], now));
    assert after == before[v := Payout(l.stakes[v], now)];
    ProcessStep(l, now);
    TotalPointwise(after, Payouts(l, now));
  }

  lemma PayOne(l: Ledger, now: nat, todo: set<ValidatorID>, stakes: map<ValidatorID, Stake>, total: nat,
               completed: map<ValidatorID, seq<Unstaking>>, v: ValidatorID)
    requires Inv(l) && Paying(l, now, todo, stakes, total, completed) && v in todo
    ensures v in stakes && stakes[v] == l.stakes[v]
    ensures var done := Ripened(stakes[v].requests, now);
            && Amounts(done) <= total
            && Paying(l, now, todo - {v}, stakes[v := Matured(stakes[v], now)], total - Amounts(done),
                      if done != [] then completed[v := done] else completed)
  {
    hide Inv, Releases, PaidSoFar, Matured, Ripened, Amounts;
    PayTotal(l, now, todo, v);
    ReleaseOne(QueuesOf(l.stakes), now, todo, v);
  }

  lemma PayDone(l: Ledger, now: nat, stakes: map<ValidatorID, Stake>, total: nat,
                completed: map<ValidatorID, seq<Unstaking>>)
    requires Inv(l) && Paying(l, now, {}, stakes, total, completed)
    ensures l.(stakes := stakes, totalStaked := total) == Step(l, StakingSpec.ProcessUnbonding(now))
    ensures completed == Releases(QueuesOf(l.stakes), now, {})
  {
    hide Inv, Matured, Payout, Releases;
    ProcessStep(l, now);
    assert PaidSoFar(l, now, {}) == Payouts(l, now);
    assert stakes == Step(l, StakingSpec.ProcessUnbonding(now)).stakes;
  }

  class StakingManager {
    var stakes: map<ValidatorID, Stake>
    var totalStaked: nat
    var currentCycle: nat
    var allTierChanges: seq<TierChange>

    ghost function State(): Ledger
      reads this
    {
      Ledger(stakes, totalStaked, currentCycle, allTierChanges)
    }

    ghost predicate Valid()
      reads this
    {
      Inv(State())
    }

    constructor ()
      ensures Valid() && State() == EMPTY
    {
      stakes, totalStaked, currentCycle, allTierChanges := map[], 0, 0, [];
      new;
      RunKeepsInv([]);
    }

    method DepositStake(v: ValidatorID, amount: nat, tx: Bytes, now: nat)
      returns (r: Result<Option<TierChange>, Error>)
      requires Valid()
      modifies this
      ensures Valid() && State() == Step(old(State()), StakingSpec.DepositStake(v, amount, tx, now))
      ensures r == if amount < MIN_STAKE_AMOUNT then Err(BelowMinimum)
                   else if |tx| != DIGEST_LENGTH then Err(BadDigest)
                   else Ok(Retiering(Credited(StakeOrNew(old(State()), v), NewDeposit(v, amount, tx, now)),
                                     currentCycle, now))
    {
      hide Inv;
      StepKeepsInv(State(), StakingSpec.DepositStake(v, amount, tx, now));
      if amount < MIN_STAKE_AMOUNT { return Err(BelowMinimum); }
      if |tx| != DIGEST_LENGTH { return Err(BadDigest); }
      var stake := if v in stakes then stakes[v] else NewStake(v);
      var credited := Credited(stake, NewDeposit(v, amount, tx, now));
      var event := Retiering(credited, currentCycle, now);
      stakes := stakes[v := Retiered(credited, currentCycle, now)];
      totalStaked := totalStaked + amount;
      if event.Some? { allTierChanges := allTierChanges + [event.value]; }
      assert old(allTierChanges) + [] == old(allTierChanges);
      r := Ok(event);
    }

    method RequestUnstake(v: ValidatorID, amount: nat, now: nat)
      returns (r: Result<(Unstaking, Option<TierChange>), Error>)
      requires Valid()
      modifies this
      ensures Valid() && State() == Step(old(State()), StakingSpec.RequestUnstake(v, amount, now))
      ensures r.Ok? <==> CanUnstake(old(State()), v, amount)
      ensures r.Err? ==> r.error == if v in old(stakes) then InsufficientStake else NoStakeFor
      ensures r.Ok? ==> r.value == (NewRequest(Claim(old(stakes)[v].validator, amount), now),
                                    Retiering(Unstaked(old(stakes)[v], amount, now), currentCycle, now))
    {
      hide Inv;
      StepKeepsInv(State(), StakingSpec.RequestUnstake(v, amount, now));
      if v !in stakes { return Err(NoStakeFor); }
      if amount > stakes[v].active { return Err(InsufficientStake); }
      var request := NewRequest(Claim(stakes[v].validator, amount), now);
      var unstaked := Unstaked(stakes[v], amount, now);
      var event := Retiering(unstaked, currentCycle, now);
      stakes := stakes[v := Retiered(unstaked, currentCycle, now)];
      if event.Some? { allTierChanges := allTierChanges + [event.value]; }
      assert old(allTierChanges) + [] == old(allTierChanges);
      r := Ok((request, event));
    }

    /** Each validator's queue is processed in turn, in an arbitrary order. */
    method ProcessUnbonding(now: nat) returns (completed: map<ValidatorID, seq<Unstaking>>)
      requires Valid()
      modifies this`stakes, this`totalStaked
      ensures Valid() && State() == Step(old(State()), StakingSpec.ProcessUnbonding(now))
      ensures completed == Releases(QueuesOf(old(stakes)), now, {})
    {
      hide Inv, Paying, Step, Matured, Releases, Ripened, Amounts;
      ghost var l := State();
      StepKeepsInv(l, StakingSpec.ProcessUnbonding(now));
      PayStart(l, now);
      completed := map[];
      var todo := stakes.Keys;
      while todo != {}
        invariant Paying(l, now, todo, stakes, totalStaked, completed)
        invariant currentCycle == l.cycle && allTierChanges == l.tierChanges
      {
        var v :| v in todo;
        PayOne(l, now, todo, stakes, totalStaked, completed, v);
        todo := todo - {v};
        var done := Ripened(stakes[v].requests, now);
        stakes := stakes[v := Matured(stakes[v], now)];
        NothingReleased(done);
        if done != [] {
          Settle(done);
          completed := completed[v := done];
        }
      }
      PayDone(l, now, stakes, totalStaked, completed);
    }

    method Settle(done: seq<Unstaking>)
      requires Amounts(done) <= totalStaked
      modifies this`totalStaked
      ensures totalStaked == old(totalStaked) - Amounts(done)
    {
      var i := 0;
      while i < |done|
        invariant i <= |done| && totalStaked == old(totalStaked) - Amounts(done[..i])
      {
        TakeOneMore(done, i);
        AmountsAppend(done[..i], done[i]);
        AmountsSoFar(done, i + 1);
        totalStaked := totalStaked - done[i].claim.amount;
        i := i + 1;
      }
      TakeAll(done);
    }

    method RemoveValidator(v: ValidatorID) returns (r: Result<(), Error>)
      requires Valid()
      modifies this`stakes
      ensures Valid() && State() == Step(old(State()), StakingSpec.RemoveValidator(v))
      ensures r == if CanRemove(old(State()), v) then Ok(()) else Err(StakeRemains)
    {
      hide Inv;
      StepKeepsInv(State(), StakingSpec.RemoveValidator(v));
      if v in stakes && (stakes[v].active > 0 || stakes[v].unbonding > 0) { return Err(StakeRemains); }
      stakes := stakes - {v};
      r := Ok(());
    }

    method AdvanceCycle()
      requires Valid()
      modifies this`currentCycle
      ensures Valid() && State() == Step(old(State()), StakingSpec.AdvanceCycle)
    {
      hide Inv;
      StepKeepsInv(State(), StakingSpec.AdvanceCycle);
      currentCycle := currentCycle + 1;
    }

    function GetActiveStake(v: ValidatorID): nat
      reads this
    {
      if v in stakes then stakes[v].active else 0
    }

    predicate MeetsMinimumStake(v: ValidatorID)
      reads this
    {
      v in stakes && stakes[v].active >= MIN_STAKE_AMOUNT
    }

    /** Validators with active stake, in an arbitrary order. */
    method GetStakedValidators() returns (s: seq<ValidatorID>)
      ensures NoDup(s) && Elements(s) == set v | v in stakes && stakes[v].active > 0
    {
      s := [];
      var todo := stakes.Keys;
      while todo != {}
        invariant todo <= stakes.Keys && NoDup(s)
        invariant forall v :: v in s <==> v in stakes && stakes[v].active > 0 && v !in todo
      {
        var v :| v in todo;
        todo := todo - {v};
        if stakes[v].active > 0 { s := s + [v]; }
      }
    }
  }
}
