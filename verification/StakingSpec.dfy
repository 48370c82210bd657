/** The stake ledger as a value: deposits, unbonding queues, tier changes, and the effect of every operation. */
module StakingSpec {
  import opened Wrappers
  import opened Collections
  import opened ByteStrings
  import opened Tiers
  import opened Quorum
  import opened UnbondingQueue

  const MIN_STAKE_AMOUNT: nat := 10_000
  const DIGEST_LENGTH: nat := 64

  datatype TierChange = TierChange(
    validator: ValidatorID, fromTier: Tier, toTier: Tier, stake: nat, timestamp: nat, cycle: nat)

  datatype Deposit = Deposit(validator: ValidatorID, amount: nat, tier: Tier, depositedAt: nat, tx: Bytes)

  datatype Claim = Claim(validator: ValidatorID, amount: nat)

  type Unstaking = Request<Claim>

  datatype Stake = Stake(
    validator: ValidatorID,
    total: nat,
    active: nat,
    unbonding: nat,
    tier: Tier,
    deposits: seq<Deposit>,
    requests: seq<Unstaking>,
    tierHistory: seq<TierChange>)

  function NewStake(v: ValidatorID): Stake {
    Stake(v, 0, 0, 0, Bronze, [], [], [])
  }

  /** The event raised when the active stake no longer matches the recorded tier. */
  function Retiering(s: Stake, cycle: nat, now: nat): Option<TierChange> {
    var tier := FromStake(s.active);
    if tier != s.tier then Some(TierChange(s.validator, s.tier, tier, s.active, now, cycle)) else None
  }

  function Retiered(s: Stake, cycle: nat, now: nat): Stake {
    match Retiering(s, cycle, now)
    case Some(event) => s.(tier := event.toTier, tierHistory := s.tierHistory + [event])
    case None => s
  }

  function Credited(s: Stake, d: Deposit): Stake {
    s.(total := s.total + d.amount, active := s.active + d.amount, deposits := s.deposits + [d])
  }

  function Unstaked(s: Stake, amount: nat, now: nat): Stake
    requires amount <= s.active
  {
    s.(active := s.active - amount, unbonding := s.unbonding + amount,
       requests := s.requests + [NewRequest(Claim(s.validator, amount), now)])
  }

  function Amounts(rs: seq<Unstaking>): nat {
    if rs == [] then 0 else Amounts(rs[..|rs| - 1]) + rs[|rs| - 1].claim.amount
  }

  function Payout(s: Stake, now: nat): nat {
    Amounts(Ripened(s.requests, now))
  }

  function Matured(s: Stake, now: nat): Stake {
    s.(total := Minus(s.total, Payout(s, now)), unbonding := Minus(s.unbonding, Payout(s, now)),
       requests := Waiting(s.requests, now))
  }

  // ---------- One validator's stake ----------

  /** Each event starts at the tier the one before it reached. */
  ghost predicate TierChain(log: seq<TierChange>, first: Tier, last: Tier) {
    if log == [] then first == last
    else log[0].fromTier == first && log[0].toTier != first && TierChain(log[1..], log[0].toTier, last)
  }

  lemma {:induction false} TierChainExtend(log: seq<TierChange>, first: Tier, last: Tier, event: TierChange)
    requires TierChain(log, first, last) && event.fromTier == last && event.toTier != last
    ensures TierChain(log + [event], first, event.toTier)
  {
    if log != [] {
      TierChainExtend(log[1..], log[0].toTier, last, event);
      assert (log + [event])[1..] == log[1..] + [event];
    }
  }

  ghost predicate Pending(s: Stake) {
    Queued(s.requests) && forall r :: r in s.requests ==> r.claim.validator == s.validator
  }

  ghost predicate Balanced(s: Stake) {
    s.total == s.active + s.unbonding && s.unbonding == Amounts(s.requests)
  }

  ghost predicate StakeInv(s: Stake) {
    Balanced(s) && Pending(s) && s.tier == FromStake(s.active) && TierChain(s.tierHistory, Bronze, s.tier)
  }

  lemma AmountsAppend(rs: seq<Unstaking>, r: Unstaking)
    ensures Amounts(rs + [r]) == Amounts(rs) + r.claim.amount
  {
    assert (rs + [r])[..|rs|] == rs;
  }

  lemma AmountsScan(rs: seq<Unstaking>, r: Unstaking, now: nat)
    ensures Amounts(Ripened(rs + [r], now)) == Amounts(Ripened(rs, now)) + if Ripe(r, now) then r.claim.amount else 0
  {
    ScanAppend(rs, r, now);
    AmountsAppend(Ripened(rs, now), Completed(r));
    assert Ripened(rs, now) + [] == Ripened(rs, now);
  }

  /** Every queued amount either completes or stays. */
  lemma {:induction false} QueueBalances(rs: seq<Unstaking>, now: nat)
    requires forall r :: r in rs ==> !r.completed
    ensures Amounts(rs) == Amounts(Ripened(rs, now)) + Amounts(Waiting(rs, now))
  {
    if rs != [] {
      var init, r := rs[..|rs| - 1], rs[|rs| - 1];
      QueueBalances(init, now);
      assert rs == init + [r];
      AmountsScan(init, r, now);
      ScanAppend(init, r, now);
      AmountsAppend(Waiting(init, now), r);
      assert Waiting(init, now) + [] == Waiting(init, now);
    }
  }

  lemma RetieredInv(s: Stake, cycle: nat, now: nat)
    requires Balanced(s) && Pending(s) && TierChain(s.tierHistory, Bronze, s.tier)
    ensures StakeInv(Retiered(s, cycle, now))
  {
    var event := Retiering(s, cycle, now);
    if event.Some? { TierChainExtend(s.tierHistory, Bronze, s.tier, event.value); }
  }

  lemma DepositKeepsInv(s: Stake, d: Deposit, cycle: nat, now: nat)
    requires StakeInv(s)
    ensures StakeInv(Retiered(Credited(s, d), cycle, now))
  {
    RetieredInv(Credited(s, d), cycle, now);
  }

  lemma UnstakeKeepsInv(s: Stake, amount: nat, cycle: nat, now: nat)
    requires StakeInv(s) && amount <= s.active
    ensures StakeInv(Retiered(Unstaked(s, amount, now), cycle, now))
  {
    AmountsAppend(s.requests, NewRequest(Claim(s.validator, amount), now));
    RetieredInv(Unstaked(s, amount, now), cycle, now);
  }

  /** Completed requests leave exactly what they carried; no subtraction goes below zero. */
  lemma MatureKeepsInv(s: Stake, now: nat)
    requires StakeInv(s)
    ensures StakeInv(Matured(s, now))
    ensures Payout(s, now) <= s.unbonding <= s.total && Matured(s, now).total + Payout(s, now) == s.total
  {
    QueueSplits(s.requests, now);
    QueueBalances(s.requests, now);
  }

  /** Nothing is released before its seven days are over, and nothing that is due stays behind. */
  lemma ReleaseIsTimely(s: Stake, now: nat)
    requires StakeInv(s)
    ensures forall r :: r in Ripened(s.requests, now) ==> now >= r.requestedAt + UNBONDING_PERIOD_SECS
    ensures forall r :: r in Matured(s, now).requests ==> now < r.requestedAt + UNBONDING_PERIOD_SECS
  {
    QueueSplits(s.requests, now);
  }

  // ---------- The ledger of all validators ----------

  datatype Ledger = Ledger(
    stakes: map<ValidatorID, Stake>, totalStaked: nat, cycle: nat, tierChanges: seq<TierChange>)

  const EMPTY := Ledger(map[], 0, 0, [])

  datatype Op =
    | DepositStake(validator: ValidatorID, amount: nat, tx: Bytes, now: nat)
    | RequestUnstake(validator: ValidatorID, amount: nat, now: nat)
    | ProcessUnbonding(now: nat)
    | RemoveValidator(validator: ValidatorID)
    | AdvanceCycle

  function StakeOrNew(l: Ledger, v: ValidatorID): Stake {
    if v in l.stakes then l.stakes[v] else NewStake(v)
  }

  predicate AcceptsDeposit(amount: nat, tx: Bytes) {
    amount >= MIN_STAKE_AMOUNT && |tx| == DIGEST_LENGTH
  }

  function NewDeposit(v: ValidatorID, amount: nat, tx: Bytes, now: nat): Deposit {
    Deposit(v, amount, FromStake(amount), now, tx)
  }

  /** Store the changed stake and log its tier change, if there was one. */
  function Record(l: Ledger, v: ValidatorID, changed: Stake, now: nat): Ledger {
    var log := match Retiering(changed, l.cycle, now) case Some(event) => [event] case None => [];
    l.(stakes := l.stakes[v := Retiered(changed, l.cycle, now)], tierChanges := l.tierChanges + log)
  }

  predicate CanUnstake(l: Ledger, v: ValidatorID, amount: nat) {
    v in l.stakes && amount <= l.stakes[v].active
  }

  predicate CanRemove(l: Ledger, v: ValidatorID) {
    v in l.stakes ==> l.stakes[v].active == 0 && l.stakes[v].unbonding == 0
  }

  ghost function Payouts(l: Ledger, now: nat): map<ValidatorID, nat> {
    map v | v in l.stakes :: Payout(l.stakes[v], now)
  }

  ghost function Step(l: Ledger, op: Op): Ledger {
    match op
    case DepositStake(v, amount, tx, now) =>
      if !AcceptsDeposit(amount, tx) then l
      else Record(l, v, Credited(StakeOrNew(l, v), NewDeposit(v, amount, tx, now)), now)
             .(totalStaked := l.totalStaked + amount)
    case RequestUnstake(v, amount, now) =>
      if CanUnstake(l, v, amount) then Record(l, v, Unstaked(l.stakes[v], amount, now), now) else l
    case ProcessUnbonding(now) =>
      l.(stakes := map v | v in l.stakes :: Matured(l.stakes[v], now),
         totalStaked := Minus(l.totalStaked, Total(Payouts(l, now))))
    case RemoveValidator(v) => if CanRemove(l, v) then l.(stakes := l.stakes - {v}) else l
    case AdvanceCycle => l.(cycle := l.cycle + 1)
  }

  ghost function Run(ops: seq<Op>): Ledger {
    if ops == [] then EMPTY else Step(Run(ops[..|ops| - 1]), ops[|ops| - 1])
  }

  lemma DepositRaisesActive(l: Ledger, v: ValidatorID, amount: nat, tx: Bytes, now: nat)
    requires AcceptsDeposit(amount, tx)
    ensures var t := Step(l, DepositStake(v, amount, tx, now)).stakes;
            && t.Keys == l.stakes.Keys + {v} && t[v].active == StakeOrNew(l, v).active + amount
            && forall w :: w in l.stakes && w != v ==> t[w] == l.stakes[w]
  {
    hide FromStake;
  }

  lemma UnstakeLowersActive(l: Ledger, v: ValidatorID, amount: nat, now: nat)
    requires CanUnstake(l, v, amount)
    ensures var t := Step(l, RequestUnstake(v, amount, now)).stakes;
            && t.Keys == l.stakes.Keys && t[v].active + amount == l.stakes[v].active
            && forall w :: w in l.stakes && w != v ==> t[w] == l.stakes[w]
  {
    hide FromStake;
  }

  lemma RunOne(ops: seq<Op>, op: Op)
    ensures Run(ops + [op]) == Step(Run(ops), op)
  {
    assert (ops + [op])[..|ops|] == ops;
  }

  // ---------- What every reachable ledger satisfies ----------

  ghost function Totals(stakes: map<ValidatorID, Stake>): map<ValidatorID, nat> {
    map v | v in stakes :: stakes[v].total
  }

  /** The events of one validator, in order. */
  function Project(log: seq<TierChange>, v: ValidatorID): seq<TierChange> {
    if log == [] then []
    else Project(log[..|log| - 1], v) + if log[|log| - 1].validator == v then [log[|log| - 1]] else []
  }

  function TierOf(l: Ledger, v: ValidatorID): Tier {
    if v in l.stakes then l.stakes[v].tier else Bronze
  }

  ghost predicate StakesSound(l: Ledger) {
    forall v :: v in l.stakes ==> l.stakes[v].validator == v && StakeInv(l.stakes[v])
  }

  /** The log tells each validator's whole tier history, through removals and returns. */
  ghost predicate LogSound(l: Ledger) {
    forall v :: TierChain(Project(l.tierChanges, v), Bronze, TierOf(l, v))
  }

  ghost predicate Inv(l: Ledger) {
    StakesSound(l) && l.totalStaked == Total(Totals(l.stakes)) && LogSound(l)
  }

  lemma ProjectOne(log: seq<TierChange>, event: TierChange, v: ValidatorID)
    ensures Project(log + [event], v) == Project(log, v) + if event.validator == v then [event] else []
  {
    assert (log + [event])[..|log|] == log;
  }

  lemma RecordExtendsLog(l: Ledger, v: ValidatorID, changed: Stake, now: nat, w: ValidatorID)
    requires changed.validator == v
    ensures var event := Retiering(changed, l.cycle, now);
            Project(Record(l, v, changed, now).tierChanges, w) ==
            Project(l.tierChanges, w) + if event.Some? && w == v then [event.value] else []
  {
    hide FromStake;
    match Retiering(changed, l.cycle, now)
    case Some(event) => ProjectOne(l.tierChanges, event, w);
    case None => assert l.tierChanges + [] == l.tierChanges;
  }

  lemma RecordKeepsLog(l: Ledger, v: ValidatorID, changed: Stake, now: nat)
    requires LogSound(l) && changed.validator == v && changed.tier == TierOf(l, v)
    ensures LogSound(Record(l, v, changed, now))
  {
    hide TierChain, Project, FromStake;
    var event := Retiering(changed, l.cycle, now);
    var l' := Record(l, v, changed, now);
    forall w ensures TierChain(Project(l'.tierChanges, w), Bronze, TierOf(l', w)) {
      RecordExtendsLog(l, v, changed, now, w);
      assert Project(l.tierChanges, w) + [] == Project(l.tierChanges, w);
      if event.Some? && w == v {
        TierChainExtend(Project(l.tierChanges, w), Bronze, TierOf(l, w), event.value);
      }
    }
  }

  lemma TotalsUpdate(stakes: map<ValidatorID, Stake>, v: ValidatorID, s: Stake)
    ensures Total(Totals(stakes[v := s])) + (if v in stakes then stakes[v].total else 0) ==
            Total(Totals(stakes)) + s.total
  {
    TotalUpdate(Totals(stakes), v, s.total);
    assert Totals(stakes[v := s]) == Totals(stakes)[v := s.total];
  }

  lemma NewStakeInv(v: ValidatorID)
    ensures StakeInv(NewStake(v))
  {
  }

  /** Storing a sound stake keeps the ledger sound when its total and the network's change alike. */
  lemma {:induction false} RecordKeepsInv(l: Ledger, v: ValidatorID, changed: Stake, now: nat, network: nat)
    requires Inv(l) && changed.validator == v && changed.tier == TierOf(l, v)
    requires StakeInv(Retiered(changed, l.cycle, now))
    requires network + (if v in l.stakes then l.stakes[v].total else 0) == l.totalStaked + changed.total
    ensures Inv(Record(l, v, changed, now).(totalStaked := network))
  {
    hide StakeInv, TierChain, FromStake, Project;
    RecordKeepsLog(l, v, changed, now);
    TotalsUpdate(l.stakes, v, Retiered(changed, l.cycle, now));
    var l' := Record(l, v, changed, now).(totalStaked := network);
    SameTiers(Record(l, v, changed, now), l');
  }

  lemma SameTiers(l: Ledger, l': Ledger)
    requires LogSound(l) && l'.tierChanges == l.tierChanges && forall v :: TierOf(l', v) == TierOf(l, v)
    ensures LogSound(l')
  {
    hide TierChain, Project;
  }

  lemma DepositStep(l: Ledger, op: Op)
    requires Inv(l) && op.DepositStake? && AcceptsDeposit(op.amount, op.tx)
    ensures Inv(Step(l, op))
  {
    hide TierChain, FromStake, LogSound, Project, Total, Balanced, Pending;
    var s := StakeOrNew(l, op.validator);
    NewStakeInv(op.validator);
    var d := NewDeposit(op.validator, op.amount, op.tx, op.now);
    DepositKeepsInv(s, d, l.cycle, op.now);
    RecordKeepsInv(l, op.validator, Credited(s, d), op.now, l.totalStaked + op.amount);
  }

  lemma UnstakeStep(l: Ledger, op: Op)
    requires Inv(l) && op.RequestUnstake? && CanUnstake(l, op.validator, op.amount)
    ensures Inv(Step(l, op))
  {
    hide TierChain, FromStake, LogSound, Project, Total, Balanced, Pending;
    var s := l.stakes[op.validator];
    UnstakeKeepsInv(s, op.amount, l.cycle, op.now);
    RecordKeepsInv(l, op.validator, Unstaked(s, op.amount, op.now), op.now, l.totalStaked);
  }

  /** What is paid out is exactly what the totals lose. */
  lemma {:induction false} PayoutsLeaveTotals(l: Ledger, now: nat)
    requires StakesSound(l)
    ensures Total(Totals(l.stakes)) ==
            Total(Totals(map v | v in l.stakes :: Matured(l.stakes[v], now))) + Total(Payouts(l, now))
  {
    var after := map v | v in l.stakes :: Matured(l.stakes[v], now);
    forall v | v in l.stakes ensures Totals(l.stakes)[v] == Totals(after)[v] + Payouts(l, now)[v] {
      MatureKeepsInv(l.stakes[v], now);
    }
    TotalPlus(Totals(l.stakes), Totals(after), Payouts(l, now));
  }

  lemma {:induction false} ProcessStep(l: Ledger, now: nat)
    requires Inv(l)
    ensures Inv(Step(l, ProcessUnbonding(now))) && Total(Payouts(l, now)) <= l.totalStaked
  {
    PayoutsLeaveTotals(l, now);
    forall v | v in l.stakes ensures StakeInv(Matured(l.stakes[v], now)) { MatureKeepsInv(l.stakes[v], now); }
    SameTiers(l, Step(l, ProcessUnbonding(now)));
  }

  lemma EmptyStakeIsBronze(s: Stake)
    requires StakeInv(s) && s.active == 0 && s.unbonding == 0
    ensures s.total == 0 && s.tier == Bronze
  {
  }

  lemma {:induction false} RemoveStep(l: Ledger, v: ValidatorID)
    requires Inv(l)
    ensures Inv(Step(l, RemoveValidator(v)))
  {
    hide TierChain, Project, Total;
    if v in l.stakes && CanRemove(l, v) {
      assert StakeInv(l.stakes[v]);
      EmptyStakeIsBronze(l.stakes[v]);
      TotalRemove(Totals(l.stakes), v);
      assert Totals(l.stakes - {v}) == Totals(l.stakes) - {v};
    } else if CanRemove(l, v) {
      assert l.stakes - {v} == l.stakes;
    }
    SameTiers(l, Step(l, RemoveValidator(v)));
  }

  lemma {:induction false} StepKeepsInv(l: Ledger, op: Op)
    requires Inv(l)
    ensures Inv(Step(l, op))
  {
    match op
    case DepositStake(_, amount, tx, _) => if AcceptsDeposit(amount, tx) { DepositStep(l, op); }
    case RequestUnstake(v, amount, _) => if CanUnstake(l, v, amount) { UnstakeStep(l, op); }
    case ProcessUnbonding(now) => ProcessStep(l, now);
    case RemoveValidator(v) => RemoveStep(l, v);
    case AdvanceCycle => SameTiers(l, Step(l, op));
  }

  /** Balanced stakes, a network total that is their sum, and a log that tells every tier history. */
  lemma {:induction false} RunKeepsInv(ops: seq<Op>)
    ensures var l := Run(ops); StakesSound(l) && l.totalStaked == Total(Totals(l.stakes)) && LogSound(l)
  {
    if ops != [] {
      RunKeepsInv(ops[..|ops| - 1]);
      StepKeepsInv(Run(ops[..|ops| - 1]), ops[|ops| - 1]);
    }
  }

  // ---------- Conservation over whole runs ----------

  /** Everything `v` ever deposited. */
  function DepositedBy(ops: seq<Op>, v: ValidatorID): nat {
    if ops == [] then 0
    else
      var op := ops[|ops| - 1];
      DepositedBy(ops[..|ops| - 1], v) +
      if op.DepositStake? && op.validator == v && op.amount >= 10_000 && |op.tx| == 64 then op.amount else 0
  }

  /** Everything ever released to `v`. */
  ghost function PaidTo(ops: seq<Op>, v: ValidatorID): nat {
    if ops == [] then 0
    else
      var init, op := ops[..|ops| - 1], ops[|ops| - 1];
      PaidTo(init, v) +
      if op.ProcessUnbonding? && v in Run(init).stakes then Payout(Run(init).stakes[v], op.now) else 0
  }

  function DepositedInAll(ops: seq<Op>): nat {
    if ops == [] then 0
    else
      var op := ops[|ops| - 1];
      DepositedInAll(ops[..|ops| - 1]) +
      if op.DepositStake? && op.amount >= 10_000 && |op.tx| == 64 then op.amount else 0
  }

  ghost function PaidInAll(ops: seq<Op>): nat {
    if ops == [] then 0
    else
      var init, op := ops[..|ops| - 1], ops[|ops| - 1];
      PaidInAll(init) + if op.ProcessUnbonding? then Total(Payouts(Run(init), op.now)) else 0
  }

  function HeldBy(l: Ledger, v: ValidatorID): nat {
    if v in l.stakes then l.stakes[v].total else 0
  }

  lemma RetieringKeepsTotal()
    ensures forall s, cycle, now :: Retiered(s, cycle, now).total == s.total
  {
  }

  lemma {:induction false} StepConserves(l: Ledger, op: Op, v: ValidatorID)
    requires Inv(l)
    ensures HeldBy(Step(l, op), v) +
            (if op.ProcessUnbonding? && v in l.stakes then Payout(l.stakes[v], op.now) else 0) ==
            HeldBy(l, v) +
            (if op.DepositStake? && op.validator == v && AcceptsDeposit(op.amount, op.tx) then op.amount else 0)
  {
    hide TierChain, Project, LogSound, Total, Queued, Payout, FromStake, Retiered;
    RetieringKeepsTotal();
    if v in l.stakes {
      assert StakeInv(l.stakes[v]);
      if op.ProcessUnbonding? { MatureKeepsInv(l.stakes[v], op.now); }
    }
  }

  /** What a validator deposited is what it still holds plus what it was paid, through removals and returns. */
  lemma {:induction false} ValidatorConservation(ops: seq<Op>, v: ValidatorID)
    ensures DepositedBy(ops, v) == HeldBy(Run(ops), v) + PaidTo(ops, v)
  {
    if ops != [] {
      var init := ops[..|ops| - 1];
      ValidatorConservation(init, v);
      RunKeepsInv(init);
      StepConserves(Run(init), ops[|ops| - 1], v);
    }
  }

  /** The same for the network: all deposits are staked or paid out. */
  lemma {:induction false} NetworkConservation(ops: seq<Op>)
    ensures DepositedInAll(ops) == Run(ops).totalStaked + PaidInAll(ops)
  {
    if ops != [] {
      var init, op := ops[..|ops| - 1], ops[|ops| - 1];
      NetworkConservation(init);
      RunKeepsInv(init);
      if op.ProcessUnbonding? { ProcessStep(Run(init), op.now); }
    }
  }

  /** In every reachable ledger the tier follows the active stake, and the log is the history that led there. */
  lemma TiersFollowStake(ops: seq<Op>, v: ValidatorID)
    ensures var l := Run(ops);
            && TierChain(Project(l.tierChanges, v), Bronze, TierOf(l, v))
            && TierOf(l, v) == FromStake(StakeOrNew(l, v).active)
  {
    RunKeepsInv(ops);
    assert FromStake(0) == Bronze;
  }

  /** In every reachable ledger a validator with more active stake has at least as much voting power. */
  lemma {:induction false} PowerFollowsStake(ops: seq<Op>, v: ValidatorID, w: ValidatorID)
    requires v in Run(ops).stakes && w in Run(ops).stakes
    requires Run(ops).stakes[v].active <= Run(ops).stakes[w].active
    ensures var a, b := Run(ops).stakes[v], Run(ops).stakes[w];
            VotingPower(a.tier, a.active) <= VotingPower(b.tier, b.active)
  {
    hide Run, VotingPower;
    RunKeepsInv(ops);
    VotingPowerMonotone(Run(ops).stakes[v].active, Run(ops).stakes[w].active);
  }

  /** Requests handed back by a processing step have waited their seven days; the rest have not. */
  lemma {:induction false} NoEarlyRelease(ops: seq<Op>, v: ValidatorID, now: nat)
    requires v in Run(ops).stakes
    ensures forall r :: r in Ripened(Run(ops).stakes[v].requests, now) ==> now >= r.requestedAt + UNBONDING_PERIOD_SECS
    ensures forall r :: r in Run(ops + [ProcessUnbonding(now)]).stakes[v].requests ==>
              now < r.requestedAt + UNBONDING_PERIOD_SECS
  {
    RunKeepsInv(ops);
    ReleaseIsTimely(Run(ops).stakes[v], now);
    assert (ops + [ProcessUnbonding(now)])[..|ops|] == ops;
  }
}
