/** The mutable delegation ledger. */
module Delegations {
  import opened Wrappers
  import opened Collections
  import opened Quorum
  import opened UnbondingQueue
  import opened DelegationSpec

  datatype Error =
    | BelowMinimum | Inactive | Jailed | OverCap | NoDelegation | InsufficientDelegation | UnknownValidator | Underflow

  /** The first reason for an entry to refuse a delegation. */
  function Refusal(i: Info): Error {
    if !i.isActive then Inactive else if i.isJailed then Jailed else OverCap
  }

  class ValidatorDelegationInfo {
    const validator: ValidatorID
    var totalDelegated: nat
    var delegations: map<Address, Delegation>
    var undelegationRequests: seq<Request<Exit>>
    var isActive: bool
    var isJailed: bool

    function State(): Info
      reads this
    {
      Info(validator, totalDelegated, delegations, undelegationRequests, isActive, isJailed)
    }

    ghost predicate Valid()
      reads this
    {
      InfoInv(State())
    }

    constructor (v: ValidatorID)
      ensures Valid() && State() == NewInfo(v)
    {
      validator := v;
      totalDelegated, delegations, undelegationRequests := 0, map[], [];
      isActive, isJailed := true, false;
      new;
      NewInfoInv(v);
    }

    /** `amount` has passed the minimum that a delegation record demands. */
    method AddDelegation(who: Address, amount: nat, now: nat) returns (r: Result<(), Error>)
      requires Valid() && amount >= MIN_DELEGATION_AMOUNT
      modifies this`delegations, this`totalDelegated
      ensures Valid() && State() == Step(old(State()), Delegate(who, amount, now))
      ensures r == if !isActive then Err(Inactive)
                   else if isJailed then Err(Jailed)
                   else if old(totalDelegated) + amount > 10_000_000 then Err(OverCap)
                   else Ok(())
    {
      hide InfoInv;
      StepKeepsInv(State(), Delegate(who, amount, now));
      if !isActive { return Err(Inactive); }
      if isJailed { return Err(Jailed); }
      if totalDelegated + amount > MAX_DELEGATED_STAKE_PER_VALIDATOR { return Err(OverCap); }
      if who in delegations {
        delegations := delegations[who := delegations[who].(amount := delegations[who].amount + amount)];
      } else {
        delegations := delegations[who := Delegation(amount, 0, now)];
      }
      totalDelegated := totalDelegated + amount;
      r := Ok(());
    }

    /** Take `amount` and its rewards out; all subtractions are on naturals. */
    method Debit(who: Address, amount: nat) returns (r: Result<nat, Error>)
      requires Valid()
      modifies this`delegations, this`totalDelegated
      ensures Valid()
      ensures r.Ok? <==> CanExit(old(State()), who, amount)
      ensures r.Err? ==> State() == old(State()) &&
                         r.error == if who in delegations then InsufficientDelegation else NoDelegation
      ensures r.Ok? ==> State() == Debited(old(State()), who, amount) &&
                        r.value == ExitRewards(old(delegations)[who], amount)
    {
      hide InfoInv, Total, Rewards;
      if who !in delegations { return Err(NoDelegation); }
      var d := delegations[who];
      if amount > d.amount { return Err(InsufficientDelegation); }
      DebitKeepsInv(State(), who, amount);
      var rewards := if amount == d.amount then d.rewards else Share(d.rewards, amount, d.amount);
      var rest := Delegation(d.amount - amount, d.rewards - rewards, d.delegatedAt);
      delegations := delegations[who := rest];
      totalDelegated := totalDelegated - amount;
      if rest.amount == 0 {
        delegations := delegations - {who};
        assert old(delegations)[who := rest] - {who} == old(delegations) - {who};
      }
      r := Ok(rewards);
    }

    method RequestUndelegation(who: Address, amount: nat, now: nat) returns (r: Result<Request<Exit>, Error>)
      requires Valid()
      modifies this
      ensures Valid() && State() == Step(old(State()), Undelegate(who, amount, now))
      ensures r.Ok? <==> CanExit(old(State()), who, amount)
      ensures r.Ok? ==> r.value == ExitRequest(old(State()), who, amount, now)
    {
      hide InfoInv;
      StepKeepsInv(State(), Undelegate(who, amount, now));
      var rewards := Debit(who, amount);
      if rewards.Err? { return Err(rewards.error); }
      var request := NewRequest(Exit(who, validator, amount, rewards.value), now);
      undelegationRequests := undelegationRequests + [request];
      r := Ok(request);
    }

    method Redelegate(who: Address, amount: nat) returns (r: Result<(nat, nat), Error>)
      requires Valid()
      modifies this`delegations, this`totalDelegated
      ensures Valid() && State() == Step(old(State()), DelegationSpec.Redelegate(who, amount))
      ensures r.Ok? <==> CanExit(old(State()), who, amount)
      ensures r.Ok? ==> r.value == (amount, ExitRewards(old(delegations)[who], amount))
    {
      hide InfoInv;
      var rewards := Debit(who, amount);
      if rewards.Err? { return Err(rewards.error); }
      r := Ok((amount, rewards.value));
    }

    method ProcessUndelegations(now: nat) returns (completed: seq<Request<Exit>>)
      requires Valid()
      modifies this`undelegationRequests
      ensures Valid() && State() == Step(old(State()), Process(now))
      ensures completed == Ripened(old(undelegationRequests), now)
    {
      hide InfoInv, Scanned, Ripened, Waiting, Uncompleted;
      StepKeepsInv(State(), Process(now));
      ghost var queue := undelegationRequests;
      ScanStart(queue, now);
      completed := [];
      var i := 0;
      while i < |undelegationRequests|
        invariant i <= |queue| == |undelegationRequests|
        invariant Scanned(queue, undelegationRequests, completed, i, now)
      {
        ScanOne(queue, undelegationRequests, completed, i, now);
        if Ripe(undelegationRequests[i], now) {
          undelegationRequests := undelegationRequests[i := Completed(undelegationRequests[i])];
          completed := completed + [undelegationRequests[i]];
        }
        i := i + 1;
      }
      ScanDone(queue, undelegationRequests, completed, now);
      undelegationRequests := Uncompleted(undelegationRequests);
    }

    /** Every share is taken of the same total, so the order in which the map yields delegators does not matter. */
    method DistributeRewards(reward: nat)
      requires Valid()
      modifies this`delegations
      ensures Valid() && State() == Step(old(State()), Distribute(reward))
      ensures totalDelegated > 0 ==>
                var paid := Total(Rewards(delegations)) - Total(Rewards(old(delegations)));
                paid <= reward < paid + |delegations|
    {
      hide InfoInv, Total, Rewards, RewardShares, Share;
      ghost var i := State();
      DistributeKeepsInv(i, reward);
      if totalDelegated == 0 { return; }
      DistributionIsTight(i, reward);
      var todo := delegations.Keys;
      while todo != {}
        invariant todo <= i.delegations.Keys == delegations.Keys
        invariant forall who :: who in delegations ==>
                    delegations[who] == if who in todo then i.delegations[who]
                                        else Rewarded(i.delegations[who], reward, totalDelegated)
      {
        var who :| who in todo;
        todo := todo - {who};
        var share := Share(reward, delegations[who].amount, totalDelegated);
        delegations := delegations[who := delegations[who].(rewards := delegations[who].rewards + share)];
      }
      assert delegations == Distributed(i, reward).delegations;
      SameSize(delegations, i.delegations);
    }
  }

  ghost function QueuesOf(infos: map<ValidatorID, Info>): map<ValidatorID, seq<Request<Exit>>> {
    map v | v in infos :: infos[v].requests
  }

  class DelegationManager {
    var validatorDelegations: map<ValidatorID, Info>
    var totalDelegated: nat

    ghost function State(): Book
      reads this
    {
      Book(validatorDelegations, totalDelegated)
    }

    /** Each validator's entry is sound. */
    ghost predicate Valid()
      reads this
    {
      InfosSound(State())
    }

    /** The manager's own total is the sum of the entries; a redelegation may end this. */
    ghost predicate Exact()
      reads this
    {
      BookInv(State())
    }

    constructor ()
      ensures Valid() && Exact() && State() == EMPTY
    {
      validatorDelegations, totalDelegated := map[], 0;
      new;
      EmptyBook();
    }

    method Delegate(who: Address, v: ValidatorID, amount: nat, now: nat) returns (r: Result<Delegation, Error>)
      requires Valid()
      modifies this
      ensures Valid() && (old(Exact()) ==> Exact())
      ensures State() == BookDelegated(old(State()), v, who, amount, now)
      ensures var info := InfoOrNew(old(State()), v);
              r == if amount < 10 then Err(BelowMinimum)
                   else if !info.isActive then Err(Inactive)
                   else if info.isJailed then Err(Jailed)
                   else if info.totalDelegated + amount > 10_000_000 then Err(OverCap)
                   else Ok(Delegation(amount, 0, now))
    {
      hide InfosSound, SumOf;
      DelegateStep(State(), v, who, amount, now);
      if amount < MIN_DELEGATION_AMOUNT { return Err(BelowMinimum); }
      var info := if v in validatorDelegations then validatorDelegations[v] else NewInfo(v);
      validatorDelegations := validatorDelegations[v := info];
      if !info.isActive { return Err(Inactive); }
      if info.isJailed { return Err(Jailed); }
      if !CanAdd(info, amount) { return Err(OverCap); }
      SetTwice(old(validatorDelegations), v, info, Added(info, who, amount, now));
      validatorDelegations := validatorDelegations[v := Added(info, who, amount, now)];
      totalDelegated := totalDelegated + amount;
      r := Ok(Delegation(amount, 0, now));
    }

    /** The validator's entry changes before the manager's own total is checked and lowered. */
    method Undelegate(who: Address, v: ValidatorID, amount: nat, now: nat) returns (r: Result<Request<Exit>, Error>)
      requires Valid()
      modifies this
      ensures Valid() && (old(Exact()) ==> Exact())
      ensures State() == BookUndelegated(old(State()), v, who, amount, now)
      ensures r.Ok? <==> CanUndelegate(old(State()), v, who, amount) && Covered(old(State()), amount)
      ensures r == Err(Underflow) <==> CanUndelegate(old(State()), v, who, amount) && !Covered(old(State()), amount)
      ensures old(Exact()) ==> r != Err(Underflow)
      ensures r.Ok? ==> r.value == ExitRequest(old(validatorDelegations)[v], who, amount, now)
    {
      hide InfosSound, SumOf;
      UndelegateStep(State(), v, who, amount, now);
      if v !in validatorDelegations { return Err(UnknownValidator); }
      var info := validatorDelegations[v];
      if who !in info.delegations { return Err(NoDelegation); }
      if amount > info.delegations[who].amount { return Err(InsufficientDelegation); }
      validatorDelegations := validatorDelegations[v := Undelegated(info, who, amount, now)];
      if amount > totalDelegated { return Err(Underflow); }
      totalDelegated := totalDelegated - amount;
      r := Ok(ExitRequest(info, who, amount, now));
    }

    method Redelegate(who: Address, from: ValidatorID, to: ValidatorID, amount: nat, now: nat)
      returns (r: Result<Delegation, Error>)
      requires Valid()
      modifies this`validatorDelegations
      ensures Valid() && State() == BookRedelegated(old(State()), who, from, to, amount, now)
      ensures r.Ok? <==> Lands(old(State()), who, from, to, amount)
      ensures r.Ok? ==> r.value.amount == Moved(old(State()), who, from, amount)
    {
      hide InfosSound, Debited, Added, ExitRewards, CanAdd, Refusal;
      if from !in validatorDelegations { return Err(UnknownValidator); }
      var source := validatorDelegations[from];
      if who !in source.delegations { return Err(NoDelegation); }
      if amount > source.delegations[who].amount { return Err(InsufficientDelegation); }
      DebitTotals(State(), who, from, amount);
      var moved := amount + ExitRewards(source.delegations[who], amount);
      validatorDelegations := validatorDelegations[from := Debited(source, who, amount)];
      if moved < MIN_DELEGATION_AMOUNT { return Err(BelowMinimum); }
      LandTotals(State(), who, to, moved, now);
      var target := if to in validatorDelegations then validatorDelegations[to] else NewInfo(to);
      SetTwice(validatorDelegations, to, target, Added(target, who, moved, now));
      validatorDelegations := validatorDelegations[to := target];
      if !CanAdd(target, moved) { return Err(Refusal(target)); }
      validatorDelegations := validatorDelegations[to := Added(target, who, moved, now)];
      r := Ok(Delegation(moved, 0, now));
    }

    method ProcessUndelegations(now: nat) returns (completed: map<ValidatorID, seq<Request<Exit>>>)
      requires Valid()
      modifies this`validatorDelegations
      ensures Valid() && (old(Exact()) ==> Exact())
      ensures State() == BookProcessed(old(State()), now)
      ensures completed == Releases(QueuesOf(old(validatorDelegations)), now, {})
    {
      hide InfosSound, SumOf, Processed, Releases, Ripened;
      ghost var b := State();
      ProcessStep(b, now);
      ReleaseNone(QueuesOf(b.infos), now);
      assert QueuesOf(b.infos).Keys == b.infos.Keys;
      completed := map[];
      var todo := validatorDelegations.Keys;
      while todo != {}
        invariant todo <= b.infos.Keys == validatorDelegations.Keys
        invariant forall v :: v in b.infos ==>
                    validatorDelegations[v] == if v in todo then b.infos[v] else Processed(b.infos[v], now)
        invariant completed == Releases(QueuesOf(b.infos), now, todo)
      {
        var v :| v in todo;
        ReleaseOne(QueuesOf(b.infos), now, todo, v);
        todo := todo - {v};
        var done := Ripened(validatorDelegations[v].requests, now);
        validatorDelegations := validatorDelegations[v := Processed(validatorDelegations[v], now)];
        if done != [] { completed := completed[v := done]; }
      }
      assert validatorDelegations == BookProcessed(b, now).infos;
    }

    method DistributeValidatorRewards(v: ValidatorID, reward: nat)
      requires Valid()
      modifies this`validatorDelegations
      ensures Valid() && (old(Exact()) ==> Exact())
      ensures State() == BookDistributed(old(State()), v, reward)
    {
      hide InfosSound, SumOf;
      DistributeStep(State(), v, reward);
      if v in validatorDelegations {
        validatorDelegations := validatorDelegations[v := Distributed(validatorDelegations[v], reward)];
      }
    }

    method SetValidatorActive(v: ValidatorID, active: bool)
      requires Valid()
      modifies this`validatorDelegations
      ensures Valid() && (old(Exact()) ==> Exact())
      ensures State() == BookFlagged(old(State()), v, SetActive(active))
    {
      hide InfosSound, SumOf;
      FlagStep(State(), v, SetActive(active));
      if v in validatorDelegations {
        validatorDelegations := validatorDelegations[v := validatorDelegations[v].(isActive := active)];
      }
    }

    method SetValidatorJailed(v: ValidatorID, jailed: bool)
      requires Valid()
      modifies this`validatorDelegations
      ensures Valid() && (old(Exact()) ==> Exact())
      ensures State() == BookFlagged(old(State()), v, SetJailed(jailed))
    {
      hide InfosSound, SumOf;
      FlagStep(State(), v, SetJailed(jailed));
      if v in validatorDelegations {
        validatorDelegations := validatorDelegations[v := validatorDelegations[v].(isJailed := jailed)];
      }
    }

    function GetValidatorDelegatedStake(v: ValidatorID): nat
      reads this
    {
      if v in validatorDelegations then validatorDelegations[v].totalDelegated else 0
    }
  }
}
