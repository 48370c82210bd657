/** What a run of the stake ledger says about each validator, in terms of its operations alone. */
module StakeHistory {
  import opened Collections
  import opened Tiers
  import opened Quorum
  import opened UnbondingQueue
  import opened StakingSpec

  // ---------- Unbonding requests ----------

  /** `v` asked for that amount at that time. */
  ghost predicate Asked(ops: seq<Op>, v: ValidatorID, amount: nat, time: nat) {
    exists j :: 0 <= j < |ops| && ops[j].RequestUnstake? && ops[j].validator == v && ops[j].amount == amount
                && ops[j].now == time
  }

  lemma AskedEarlier(ops: seq<Op>, v: ValidatorID, amount: nat, time: nat)
    requires ops != []
    ensures var op := ops[|ops| - 1];
            Asked(ops, v, amount, time) <==>
            || Asked(ops[..|ops| - 1], v, amount, time)
            || (op.RequestUnstake? && op.validator == v && op.amount == amount && op.now == time)
  {
    var init, n := ops[..|ops| - 1], |ops| - 1;
    if j :| 0 <= j < |init| && init[j].RequestUnstake? && init[j].validator == v && init[j].amount == amount
            && init[j].now == time {
      assert ops[j].RequestUnstake? && ops[j].validator == v && ops[j].amount == amount && ops[j].now == time;
    }
    if j :| 0 <= j < |ops| && ops[j].RequestUnstake? && ops[j].validator == v && ops[j].amount == amount
            && ops[j].now == time {
      if j < n {
        assert init[j].RequestUnstake? && init[j].validator == v && init[j].amount == amount && init[j].now == time;
      }
    }
  }

  /** A queued request was queued before, or the operation made it. */
  lemma StepQueues(l: Ledger, op: Op, v: ValidatorID, r: Unstaking)
    requires Inv(l) && v in Step(l, op).stakes && r in Step(l, op).stakes[v].requests
    ensures || (v in l.stakes && r in l.stakes[v].requests)
            || (op.RequestUnstake? && op.validator == v && r.claim.amount == op.amount && r.requestedAt == op.now)
    ensures r.claim.validator == v && !r.completed
  {
    hide TierChain, LogSound, Project, Total, FromStake, Balanced;
    StepKeepsInv(l, op);
    assert StakeInv(Step(l, op).stakes[v]);
    if op.ProcessUnbonding? { QueueSplits(l.stakes[v].requests, op.now); }
  }

  /** Over every run each queued request was asked for, and is due seven days after that. */
  lemma {:induction false} QueuedWasAsked(ops: seq<Op>, v: ValidatorID, r: Unstaking)
    requires v in Run(ops).stakes && r in Run(ops).stakes[v].requests
    ensures Asked(ops, v, r.claim.amount, r.requestedAt)
    ensures r.claim.validator == v && !r.completed && r.unbondsAt == r.requestedAt + 604_800
  {
    hide Step, Asked;
    RunKeepsInv(ops);
    assert StakeInv(Run(ops).stakes[v]);
    NobodyAtFirst(ops);
    var init, op := ops[..|ops| - 1], ops[|ops| - 1];
    RunKeepsInv(init);
    StepQueues(Run(init), op, v, r);
    AskedEarlier(ops, v, r.claim.amount, r.requestedAt);
    if v in Run(init).stakes && r in Run(init).stakes[v].requests { QueuedWasAsked(init, v, r); }
  }

  lemma NobodyAtFirst(ops: seq<Op>)
    ensures Run(ops).stakes != map[] ==> ops != []
  {
  }

  /** Whatever processing at `now` releases was asked for at least seven days before; whatever it leaves was not. */
  lemma {:induction false} ReleasedWasAsked(ops: seq<Op>, v: ValidatorID, now: nat)
    requires v in Run(ops).stakes
    ensures forall r :: r in Ripened(Run(ops).stakes[v].requests, now) ==>
              Asked(ops, v, r.claim.amount, r.requestedAt) && now >= r.requestedAt + 604_800
    ensures v in Run(ops + [ProcessUnbonding(now)]).stakes
    ensures forall r :: r in Run(ops + [ProcessUnbonding(now)]).stakes[v].requests <==>
              r in Run(ops).stakes[v].requests && now < r.requestedAt + 604_800
  {
    hide Asked, Run;
    RunKeepsInv(ops);
    assert StakeInv(Run(ops).stakes[v]);
    var requests := Run(ops).stakes[v].requests;
    QueueSplits(requests, now);
    forall r | r in Ripened(requests, now)
      ensures Asked(ops, v, r.claim.amount, r.requestedAt) && now >= r.requestedAt + 604_800
    {
      QueuedWasAsked(ops, v, r.(completed := false));
    }
    RunOne(ops, ProcessUnbonding(now));
  }

  // ---------- Active and unbonding stake ----------

  /** Everything `v` has successfully asked to unstake. */
  function UnstakedBy(ops: seq<Op>, v: ValidatorID): nat {
    if ops == [] then 0
    else
      var init, op := ops[..|ops| - 1], ops[|ops| - 1];
      UnstakedBy(init, v) +
      if op.RequestUnstake? && op.validator == v && UnstakedBy(init, v) + op.amount <= DepositedBy(init, v)
      then op.amount else 0
  }

  function ActiveOf(l: Ledger, v: ValidatorID): nat {
    if v in l.stakes then l.stakes[v].active else 0
  }

  function UnbondingOf(l: Ledger, v: ValidatorID): nat {
    if v in l.stakes then l.stakes[v].unbonding else 0
  }

  lemma StepActive(l: Ledger, op: Op, v: ValidatorID)
    requires Inv(l)
    ensures ActiveOf(Step(l, op), v) +
            (if op.RequestUnstake? && op.validator == v && op.amount <= ActiveOf(l, v) then op.amount else 0) ==
            ActiveOf(l, v) +
            (if op.DepositStake? && op.validator == v && op.amount >= 10_000 && |op.tx| == 64 then op.amount else 0)
  {
    hide TierChain, Project, LogSound, Total, Queued, Payout, FromStake;
    if v in l.stakes { assert StakeInv(l.stakes[v]); }
  }

  lemma StepUnbonding(l: Ledger, op: Op, v: ValidatorID)
    requires Inv(l)
    ensures UnbondingOf(Step(l, op), v) +
            (if op.ProcessUnbonding? && v in l.stakes then Payout(l.stakes[v], op.now) else 0) ==
            UnbondingOf(l, v) +
            (if op.RequestUnstake? && op.validator == v && op.amount <= ActiveOf(l, v) then op.amount else 0)
  {
    hide TierChain, Project, LogSound, Total, Queued, Payout, FromStake;
    if v in l.stakes {
      assert StakeInv(l.stakes[v]);
      if op.ProcessUnbonding? { MatureKeepsInv(l.stakes[v], op.now); }
    }
  }

  /** What was deposited is active or was unstaked; what was unstaked is unbonding or was paid out. */
  lemma {:induction false} StakeIsAccounted(ops: seq<Op>, v: ValidatorID)
    ensures DepositedBy(ops, v) == ActiveOf(Run(ops), v) + UnstakedBy(ops, v)
    ensures UnstakedBy(ops, v) == UnbondingOf(Run(ops), v) + PaidTo(ops, v)
  {
    hide Step, Payout;
    if ops != [] {
      var init, op := ops[..|ops| - 1], ops[|ops| - 1];
      StakeIsAccounted(init, v);
      RunKeepsInv(init);
      StepActive(Run(init), op, v);
      StepUnbonding(Run(init), op, v);
    }
  }

  // ---------- Records ----------

  /** The deposits `v` has made since it last joined. */
  ghost function DepositLog(ops: seq<Op>, v: ValidatorID): seq<Deposit> {
    if ops == [] || v !in Run(ops).stakes then []
    else
      var op := ops[|ops| - 1];
      DepositLog(ops[..|ops| - 1], v) +
      if op.DepositStake? && op.validator == v && op.amount >= 10_000 && |op.tx| == 64
      then [Deposit(v, op.amount, FromStake(op.amount), op.now, op.tx)] else []
  }

  lemma StepDeposits(l: Ledger, op: Op, v: ValidatorID)
    requires v in Step(l, op).stakes
    ensures v !in l.stakes ==> op.DepositStake? && op.validator == v && op.amount >= 10_000 && |op.tx| == 64
    ensures Step(l, op).stakes[v].deposits ==
            (if v in l.stakes then l.stakes[v].deposits else []) +
            if op.DepositStake? && op.validator == v && op.amount >= 10_000 && |op.tx| == 64
            then [Deposit(v, op.amount, FromStake(op.amount), op.now, op.tx)] else []
  {
    hide FromStake, Waiting, Payout;
    if v in l.stakes { assert l.stakes[v].deposits + [] == l.stakes[v].deposits; }
  }

  /** Over every run a validator's deposits are exactly those it has made since it last joined, in order. */
  lemma {:induction false} DepositsExactly(ops: seq<Op>, v: ValidatorID)
    requires v in Run(ops).stakes
    ensures Run(ops).stakes[v].deposits == DepositLog(ops, v)
  {
    hide Step;
    NobodyAtFirst(ops);
    var init := ops[..|ops| - 1];
    StepDeposits(Run(init), ops[|ops| - 1], v);
    if v in Run(init).stakes { DepositsExactly(init, v); }
  }

  /** One operation logs at most one tier change: that of its validator, dated by its clock and the ledger's cycle. */
  lemma StepLogs(l: Ledger, op: Op)
    requires Inv(l)
    ensures var t := Step(l, op);
            t.tierChanges == l.tierChanges +
              if && (op.DepositStake? || op.RequestUnstake?)
                 && FromStake(ActiveOf(l, op.validator)) != FromStake(ActiveOf(t, op.validator))
              then [TierChange(op.validator, FromStake(ActiveOf(l, op.validator)),
                               FromStake(ActiveOf(t, op.validator)), ActiveOf(t, op.validator), op.now, l.cycle)]
              else []
  {
    hide TierChain, Project, LogSound, Total, Queued, Payout, FromStake;
    BronzeAtZero();
    assert l.tierChanges + [] == l.tierChanges;
    if (op.DepositStake? || op.RequestUnstake?) && op.validator in l.stakes {
      assert StakeInv(l.stakes[op.validator]);
    }
  }

  lemma BronzeAtZero()
    ensures FromStake(0) == Bronze
  {
  }

  function CyclesIn(ops: seq<Op>): nat {
    if ops == [] then 0 else CyclesIn(ops[..|ops| - 1]) + if ops[|ops| - 1].AdvanceCycle? then 1 else 0
  }

  lemma {:induction false} CycleIsCounted(ops: seq<Op>)
    ensures Run(ops).cycle == CyclesIn(ops)
  {
    hide Payout, FromStake, Total;
    if ops != [] { CycleIsCounted(ops[..|ops| - 1]); }
  }

  /** A validator can be removed exactly when everything it deposited has been paid out. */
  lemma RemovedExactly(ops: seq<Op>, v: ValidatorID)
    requires v in Run(ops).stakes
    ensures v !in Run(ops + [RemoveValidator(v)]).stakes <==> DepositedBy(ops, v) == PaidTo(ops, v)
  {
    hide Run, DepositedBy, PaidTo, UnstakedBy;
    StakeIsAccounted(ops, v);
    RunOne(ops, RemoveValidator(v));
  }
}
