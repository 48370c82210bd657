/** Delegated stake as a value: delegations, pro-rata rewards, exits, and the effect of every operation. */
module DelegationSpec {
  import opened Arithmetic
  import opened Collections
  import opened ByteStrings
  import opened Quorum
  import opened UnbondingQueue

  type Address = Bytes

  const MIN_DELEGATION_AMOUNT: nat := 10
  const MAX_DELEGATED_STAKE_PER_VALIDATOR: nat := 10_000_000

  datatype Delegation = Delegation(amount: nat, rewards: nat, delegatedAt: nat)

  datatype Exit = Exit(delegator: Address, validator: ValidatorID, amount: nat, rewards: nat)

  datatype Info = Info(
    validator: ValidatorID,
    totalDelegated: nat,
    delegations: map<Address, Delegation>,
    requests: seq<Request<Exit>>,
    isActive: bool,
    isJailed: bool)

  function NewInfo(v: ValidatorID): Info {
    Info(v, 0, map[], [], true, false)
  }

  /** The part of `reward` that belongs to `amount` out of `whole`, rounded down. */
  function Share(reward: nat, amount: nat, whole: nat): nat
    requires whole > 0
  {
    reward * amount / whole
  }

  // ---------- One validator's delegations ----------

  predicate CanAdd(i: Info, amount: nat) {
    i.isActive && !i.isJailed && i.totalDelegated + amount <= MAX_DELEGATED_STAKE_PER_VALIDATOR
  }

  /** Adding to an existing delegation keeps its rewards and its date. */
  function Added(i: Info, who: Address, amount: nat, now: nat): Info {
    var d := if who in i.delegations then i.delegations[who].(amount := i.delegations[who].amount + amount)
             else Delegation(amount, 0, now);
    i.(delegations := i.delegations[who := d], totalDelegated := i.totalDelegated + amount)
  }

  predicate CanExit(i: Info, who: Address, amount: nat) {
    who in i.delegations && amount <= i.delegations[who].amount
  }

  /** A full exit takes all rewards along, a partial one the proportional share. */
  function ExitRewards(d: Delegation, amount: nat): nat
    requires amount <= d.amount
  {
    if amount == d.amount then d.rewards else Share(d.rewards, amount, d.amount)
  }

  function Debited(i: Info, who: Address, amount: nat): Info
    requires CanExit(i, who, amount)
  {
    var d := i.delegations[who];
    var rest := Delegation(d.amount - amount, Minus(d.rewards, ExitRewards(d, amount)), d.delegatedAt);
    i.(delegations := if rest.amount == 0 then i.delegations - {who} else i.delegations[who := rest],
       totalDelegated := Minus(i.totalDelegated, amount))
  }

  function ExitRequest(i: Info, who: Address, amount: nat, now: nat): Request<Exit>
    requires CanExit(i, who, amount)
  {
    NewRequest(Exit(who, i.validator, amount, ExitRewards(i.delegations[who], amount)), now)
  }

  function Undelegated(i: Info, who: Address, amount: nat, now: nat): Info
    requires CanExit(i, who, amount)
  {
    Debited(i, who, amount).(requests := i.requests + [ExitRequest(i, who, amount, now)])
  }

  function Rewarded(d: Delegation, reward: nat, whole: nat): Delegation
    requires whole > 0
  {
    d.(rewards := d.rewards + Share(reward, d.amount, whole))
  }

  function Distributed(i: Info, reward: nat): Info {
    if i.totalDelegated == 0 then i
    else i.(delegations := map who | who in i.delegations :: Rewarded(i.delegations[who], reward, i.totalDelegated))
  }

  function Processed(i: Info, now: nat): Info {
    i.(requests := Waiting(i.requests, now))
  }

  datatype Op =
    | Delegate(who: Address, amount: nat, now: nat)
    | Undelegate(who: Address, amount: nat, now: nat)
    | Redelegate(who: Address, amount: nat)
    | Process(now: nat)
    | Distribute(reward: nat)
    | SetActive(active: bool)
    | SetJailed(jailed: bool)

  predicate Accepts(i: Info, amount: nat) {
    amount >= MIN_DELEGATION_AMOUNT && CanAdd(i, amount)
  }

  function Step(i: Info, op: Op): Info {
    match op
    case Delegate(who, amount, now) => if Accepts(i, amount) then Added(i, who, amount, now) else i
    case Undelegate(who, amount, now) => if CanExit(i, who, amount) then Undelegated(i, who, amount, now) else i
    case Redelegate(who, amount) => if CanExit(i, who, amount) then Debited(i, who, amount) else i
    case Process(now) => Processed(i, now)
    case Distribute(reward) => Distributed(i, reward)
    case SetActive(active) => i.(isActive := active)
    case SetJailed(jailed) => i.(isJailed := jailed)
  }

  function Run(v: ValidatorID, ops: seq<Op>): Info {
    if ops == [] then NewInfo(v) else Step(Run(v, ops[..|ops| - 1]), ops[|ops| - 1])
  }

  // ---------- What every reachable validator entry satisfies ----------

  ghost function Principals(ds: map<Address, Delegation>): map<Address, nat> {
    map who | who in ds :: ds[who].amount
  }

  ghost function Rewards(ds: map<Address, Delegation>): map<Address, nat> {
    map who | who in ds :: ds[who].rewards
  }

  ghost function RewardShares(i: Info, reward: nat): map<Address, nat>
    requires i.totalDelegated > 0
  {
    map who | who in i.delegations :: Share(reward, i.delegations[who].amount, i.totalDelegated)
  }

  /** The total is the sum of the live amounts, all positive, and stays under the cap. */
  ghost predicate InfoInv(i: Info) {
    && i.totalDelegated == Total(Principals(i.delegations))
    && i.totalDelegated <= MAX_DELEGATED_STAKE_PER_VALIDATOR
    && (forall who :: who in i.delegations ==> i.delegations[who].amount > 0)
    && Queued(i.requests)
  }

  lemma SetPrincipal(ds: map<Address, Delegation>, who: Address, d: Delegation)
    ensures Total(Principals(ds[who := d])) == d.amount + Total(Principals(ds - {who}))
    ensures who in ds ==> Total(Principals(ds)) == ds[who].amount + Total(Principals(ds - {who}))
  {
    TotalUpdate(Principals(ds), who, d.amount);
    assert Principals(ds[who := d]) == Principals(ds)[who := d.amount];
    assert Principals(ds - {who}) == Principals(ds) - {who};
  }

  lemma SetRewards(ds: map<Address, Delegation>, who: Address, d: Delegation)
    ensures Total(Rewards(ds[who := d])) == d.rewards + Total(Rewards(ds - {who}))
    ensures who in ds ==> Total(Rewards(ds)) == ds[who].rewards + Total(Rewards(ds - {who}))
  {
    TotalUpdate(Rewards(ds), who, d.rewards);
    assert Rewards(ds[who := d]) == Rewards(ds)[who := d.rewards];
    assert Rewards(ds - {who}) == Rewards(ds) - {who};
  }

  lemma SetDelegation(ds: map<Address, Delegation>, who: Address, d: Delegation)
    ensures Total(Principals(ds[who := d])) == d.amount + Total(Principals(ds - {who}))
    ensures Total(Rewards(ds[who := d])) == d.rewards + Total(Rewards(ds - {who}))
    ensures who in ds ==> Total(Principals(ds)) == ds[who].amount + Total(Principals(ds - {who}))
    ensures who in ds ==> Total(Rewards(ds)) == ds[who].rewards + Total(Rewards(ds - {who}))
    ensures who !in ds ==> ds - {who} == ds
  {
    SetPrincipal(ds, who, d);
    SetRewards(ds, who, d);
  }

  /** A proportional share never exceeds what it is a share of. */
  lemma ShareBound(reward: nat, amount: nat, whole: nat)
    requires amount <= whole && whole > 0
    ensures Share(reward, amount, whole) <= reward
  {
    assert reward * amount <= reward * whole;
    DivLower(reward * amount, reward * whole, whole);
    assert reward * whole / whole == reward;
  }

  lemma DivLower(x: nat, y: nat, d: nat)
    requires x <= y && d > 0
    ensures x / d <= y / d
  {
    var p, q := x / d, y / d;
    assert p * d <= x && y < (q + 1) * d;
    assert p > q ==> (q + 1) * d <= p * d;
  }

  lemma ExitRewardsBound(d: Delegation, amount: nat)
    requires amount <= d.amount
    ensures ExitRewards(d, amount) <= d.rewards
    ensures amount == d.amount ==> ExitRewards(d, amount) == d.rewards
  {
    if amount != d.amount { ShareBound(d.rewards, amount, d.amount); }
  }

  lemma AddKeepsInv(i: Info, who: Address, amount: nat, now: nat)
    requires InfoInv(i) && CanAdd(i, amount) && amount > 0
    ensures InfoInv(Added(i, who, amount, now))
    ensures Total(Rewards(Added(i, who, amount, now).delegations)) == Total(Rewards(i.delegations))
  {
    SetDelegation(i.delegations, who, Added(i, who, amount, now).delegations[who]);
  }

  /** Nothing underflows; what leaves is exactly what the request carries. */
  lemma {:induction false} DebitKeepsInv(i: Info, who: Address, amount: nat)
    requires InfoInv(i) && CanExit(i, who, amount)
    ensures InfoInv(Debited(i, who, amount))
    ensures amount <= i.totalDelegated && ExitRewards(i.delegations[who], amount) <= i.delegations[who].rewards
    ensures Total(Rewards(Debited(i, who, amount).delegations)) + ExitRewards(i.delegations[who], amount) ==
            Total(Rewards(i.delegations))
  {
    hide ExitRewards, Total, Principals, Rewards;
    var d := i.delegations[who];
    ExitRewardsBound(d, amount);
    SetDelegation(i.delegations, who, Delegation(d.amount - amount, d.rewards - ExitRewards(d, amount), d.delegatedAt));
  }

  lemma {:induction false} DistributeKeepsInv(i: Info, reward: nat)
    requires InfoInv(i)
    ensures InfoInv(Distributed(i, reward))
    ensures i.totalDelegated > 0 ==> Total(Rewards(Distributed(i, reward).delegations)) ==
                                     Total(Rewards(i.delegations)) + Total(RewardShares(i, reward))
  {
    if i.totalDelegated > 0 {
      var after := Distributed(i, reward).delegations;
      assert Principals(after) == Principals(i.delegations);
      TotalPlus(Rewards(after), Rewards(i.delegations), RewardShares(i, reward));
    }
  }

  lemma StepKeepsInv(i: Info, op: Op)
    requires InfoInv(i)
    ensures InfoInv(Step(i, op))
  {
    match op
    case Delegate(who, amount, now) => if Accepts(i, amount) { AddKeepsInv(i, who, amount, now); }
    case Undelegate(who, amount, now) => if CanExit(i, who, amount) { DebitKeepsInv(i, who, amount); }
    case Redelegate(who, amount) => if CanExit(i, who, amount) { DebitKeepsInv(i, who, amount); }
    case Process(now) => QueueSplits(i.requests, now);
    case Distribute(reward) => DistributeKeepsInv(i, reward);
    case SetActive(_) =>
    case SetJailed(_) =>
  }

  lemma {:induction false} RunKeepsInv(v: ValidatorID, ops: seq<Op>)
    ensures InfoInv(Run(v, ops))
  {
    if ops != [] {
      RunKeepsInv(v, ops[..|ops| - 1]);
      StepKeepsInv(Run(v, ops[..|ops| - 1]), ops[|ops| - 1]);
    }
  }

  // ---------- Pro-rata distribution ----------

  /** Rounding down loses less than one unit per delegator. */
  lemma {:induction false} RoundingLoss(amounts: map<Address, nat>, shares: map<Address, nat>, reward: nat, whole: nat)
    requires whole > 0 && amounts.Keys == shares.Keys
    requires forall who :: who in amounts ==> shares[who] == Share(reward, amounts[who], whole)
    ensures whole * Total(shares) <= reward * Total(amounts)
    ensures reward * Total(amounts) <= whole * Total(shares) + |amounts| * (whole - 1)
    decreases |amounts|
  {
    hide Share, Total;
    if amounts == map[] {
      NothingLost(amounts, shares);
    } else {
      var who :| who in amounts;
      var rest, restShares := amounts - {who}, shares - {who};
      RoundingLoss(rest, restShares, reward, whole);
      TotalRemove(amounts, who);
      TotalRemove(shares, who);
      SizeRemove(amounts, who);
      ShareRemainder(reward, amounts[who], whole);
      LossStep(whole, reward, amounts[who], shares[who], Total(rest), Total(restShares), |rest|);
    }
  }

  lemma NothingLost(amounts: map<Address, nat>, shares: map<Address, nat>)
    requires amounts == map[] && amounts.Keys == shares.Keys
    ensures Total(amounts) == 0 && Total(shares) == 0 && |amounts| == 0
  {
    assert shares == map[];
  }

  lemma SizeRemove(m: map<Address, nat>, who: Address)
    requires who in m
    ensures |m| == |m - {who}| + 1
  {
    assert m.Keys == (m - {who}).Keys + {who};
    assert |m.Keys| == |m| && |(m - {who}).Keys| == |m - {who}|;
  }

  lemma ShareRemainder(reward: nat, amount: nat, whole: nat)
    requires whole > 0
    ensures var share := Share(reward, amount, whole);
            whole * share <= reward * amount <= whole * share + (whole - 1)
  {
  }

  lemma LossStep(whole: nat, reward: nat, amount: nat, share: nat, rest: nat, restShares: nat, n: nat)
    requires whole > 0
    requires whole * share <= reward * amount <= whole * share + (whole - 1)
    requires whole * restShares <= reward * rest <= whole * restShares + n * (whole - 1)
    ensures whole * (share + restShares) <= reward * (amount + rest)
    ensures reward * (amount + rest) <= whole * (share + restShares) + (n + 1) * (whole - 1)
  {
    Distributes(whole, share, restShares);
    Distributes(reward, amount, rest);
    Distributes(whole - 1, n, 1);
  }

  /** The shares never exceed the reward, and less than one unit per delegator is left over. */
  lemma DistributionIsTight(i: Info, reward: nat)
    requires InfoInv(i) && i.totalDelegated > 0
    ensures Total(RewardShares(i, reward)) <= reward < Total(RewardShares(i, reward)) + |i.delegations|
  {
    var whole := i.totalDelegated;
    var shares := RewardShares(i, reward);
    RoundingLoss(Principals(i.delegations), shares, reward, whole);
    SameSize(Principals(i.delegations), i.delegations);
    NonEmpty(i);
    CancelWhole(whole, Total(shares), reward, |i.delegations|);
  }

  lemma NonEmpty(i: Info)
    requires InfoInv(i) && i.totalDelegated > 0
    ensures |i.delegations| > 0
  {
    assert i.delegations == map[] ==> Principals(i.delegations) == map[];
  }

  lemma CancelWhole(whole: nat, given: nat, reward: nat, n: nat)
    requires whole > 0 && n > 0
    requires whole * given <= reward * whole <= whole * given + n * (whole - 1)
    ensures given <= reward < given + n
  {
    assert given > reward ==> whole * given >= whole * (reward + 1) == reward * whole + whole;
    assert reward >= given + n ==> reward * whole >= (given + n) * whole == whole * given + n * (whole - 1) + n;
  }

  /** A larger delegation earns at least as much. */
  lemma {:induction false} SharesMonotone(reward: nat, less: nat, more: nat, whole: nat)
    requires less <= more && whole > 0
    ensures Share(reward, less, whole) <= Share(reward, more, whole)
  {
    assert reward * less <= reward * more;
    DivLower(reward * less, reward * more, whole);
  }

  // ---------- Conservation over whole runs ----------

  ghost function CreditedIn(i: Info, op: Op): nat {
    if op.Distribute? && i.totalDelegated > 0 then Total(RewardShares(i, op.reward)) else 0
  }

  function CarriedOut(i: Info, op: Op): nat {
    if (op.Undelegate? || op.Redelegate?) && CanExit(i, op.who, op.amount)
    then ExitRewards(i.delegations[op.who], op.amount) else 0
  }

  function Entering(i: Info, op: Op): nat {
    if op.Delegate? && Accepts(i, op.amount) then op.amount else 0
  }

  function Leaving(i: Info, op: Op): nat {
    if (op.Undelegate? || op.Redelegate?) && CanExit(i, op.who, op.amount) then op.amount else 0
  }

  /** A quantity summed over the steps of a run. */
  ghost function Accumulated(v: ValidatorID, ops: seq<Op>, quantity: (Info, Op) -> nat): nat {
    if ops == [] then 0
    else
      var init := ops[..|ops| - 1];
      Accumulated(v, init, quantity) + quantity(Run(v, init), ops[|ops| - 1])
  }

  lemma StepConserves(i: Info, op: Op)
    requires InfoInv(i)
    ensures Total(Rewards(Step(i, op).delegations)) + CarriedOut(i, op) ==
            Total(Rewards(i.delegations)) + CreditedIn(i, op)
    ensures Step(i, op).totalDelegated + Leaving(i, op) == i.totalDelegated + Entering(i, op)
  {
    match op
    case Delegate(who, amount, now) => if Accepts(i, amount) { AddKeepsInv(i, who, amount, now); }
    case Undelegate(who, amount, now) => if CanExit(i, who, amount) { DebitKeepsInv(i, who, amount); }
    case Redelegate(who, amount) => if CanExit(i, who, amount) { DebitKeepsInv(i, who, amount); }
    case Process(now) =>
    case Distribute(reward) => DistributeKeepsInv(i, reward);
    case SetActive(_) =>
    case SetJailed(_) =>
  }

  /** Rewards credited are still accumulated or were carried out; principal delegated is still live or has left. */
  lemma {:induction false} RunConserves(v: ValidatorID, ops: seq<Op>)
    ensures Accumulated(v, ops, CreditedIn) == Total(Rewards(Run(v, ops).delegations)) + Accumulated(v, ops, CarriedOut)
    ensures Accumulated(v, ops, Entering) == Run(v, ops).totalDelegated + Accumulated(v, ops, Leaving)
  {
    if ops == [] {
      assert Rewards(map[]) == map[];
    } else {
      var init := ops[..|ops| - 1];
      RunConserves(v, init);
      RunKeepsInv(v, init);
      StepConserves(Run(v, init), ops[|ops| - 1]);
    }
  }

  // ---------- All validators ----------

  datatype Book = Book(infos: map<ValidatorID, Info>, totalDelegated: nat)

  const EMPTY := Book(map[], 0)

  function InfoOrNew(b: Book, v: ValidatorID): Info {
    if v in b.infos then b.infos[v] else NewInfo(v)
  }

  ghost function InfoTotals(infos: map<ValidatorID, Info>): map<ValidatorID, nat> {
    map v | v in infos :: infos[v].totalDelegated
  }

  ghost predicate InfosSound(b: Book) {
    forall v :: v in b.infos ==> b.infos[v].validator == v && InfoInv(b.infos[v])
  }

  ghost function SumOf(b: Book): nat {
    Total(InfoTotals(b.infos))
  }

  /** The manager's own total is the sum of the validators' totals. */
  ghost predicate BookInv(b: Book) {
    InfosSound(b) && b.totalDelegated == SumOf(b)
  }

  /** A refused delegation still leaves an entry for its validator behind. */
  function BookDelegated(b: Book, v: ValidatorID, who: Address, amount: nat, now: nat): Book {
    var i := InfoOrNew(b, v);
    if amount < MIN_DELEGATION_AMOUNT then b
    else if CanAdd(i, amount)
    then Book(b.infos[v := Added(i, who, amount, now)], b.totalDelegated + amount)
    else b.(infos := b.infos[v := i])
  }

  predicate CanUndelegate(b: Book, v: ValidatorID, who: Address, amount: nat) {
    v in b.infos && CanExit(b.infos[v], who, amount)
  }

  /** The manager's own total covers what leaves. */
  predicate Covered(b: Book, amount: nat) {
    amount <= b.totalDelegated
  }

  /** A checked subtraction that would go below zero stops the call after the validator's entry has changed. */
  function BookUndelegated(b: Book, v: ValidatorID, who: Address, amount: nat, now: nat): Book {
    if !CanUndelegate(b, v, who, amount) then b
    else
      var infos := b.infos[v := Undelegated(b.infos[v], who, amount, now)];
      Book(infos, if Covered(b, amount) then b.totalDelegated - amount else b.totalDelegated)
  }

  function BookProcessed(b: Book, now: nat): Book {
    b.(infos := map v | v in b.infos :: Processed(b.infos[v], now))
  }

  function BookDistributed(b: Book, v: ValidatorID, reward: nat): Book {
    if v in b.infos then b.(infos := b.infos[v := Distributed(b.infos[v], reward)]) else b
  }

  function BookFlagged(b: Book, v: ValidatorID, op: Op): Book
    requires op.SetActive? || op.SetJailed?
  {
    if v in b.infos then b.(infos := b.infos[v := Step(b.infos[v], op)]) else b
  }

  lemma SetInfo(infos: map<ValidatorID, Info>, v: ValidatorID, i: Info)
    ensures Total(InfoTotals(infos[v := i])) + (if v in infos then infos[v].totalDelegated else 0) ==
            Total(InfoTotals(infos)) + i.totalDelegated
  {
    TotalUpdate(InfoTotals(infos), v, i.totalDelegated);
    assert InfoTotals(infos[v := i]) == InfoTotals(infos)[v := i.totalDelegated];
  }

  lemma NewInfoInv(v: ValidatorID)
    ensures InfoInv(NewInfo(v))
  {
    assert Principals(map[]) == map[];
  }

  /** A delegation raises the manager's total and the sum alike. */
  lemma DelegateStep(b: Book, v: ValidatorID, who: Address, amount: nat, now: nat)
    requires InfosSound(b)
    ensures var t := BookDelegated(b, v, who, amount, now);
            InfosSound(t) && t.totalDelegated + SumOf(b) == b.totalDelegated + SumOf(t)
  {
    hide InfoInv, Total, Principals;
    var i := InfoOrNew(b, v);
    NewInfoInv(v);
    if CanAdd(i, amount) && amount >= MIN_DELEGATION_AMOUNT {
      AddKeepsInv(i, who, amount, now);
      SetInfo(b.infos, v, Added(i, who, amount, now));
    } else {
      SetInfo(b.infos, v, i);
    }
  }

  /** An accepted undelegation lowers the sum by its amount, which the validator's own total covers. */
  lemma {:induction false} UndelegateStep(b: Book, v: ValidatorID, who: Address, amount: nat, now: nat)
    requires InfosSound(b)
    ensures InfosSound(BookUndelegated(b, v, who, amount, now))
    ensures SumOf(b) == SumOf(BookUndelegated(b, v, who, amount, now)) +
                        if CanUndelegate(b, v, who, amount) then amount else 0
  {
    hide InfoInv, Total, Principals, ExitRewards;
    if CanUndelegate(b, v, who, amount) {
      UndelegateKeepsInv(b.infos[v], who, amount, now);
      SetInfo(b.infos, v, Undelegated(b.infos[v], who, amount, now));
    }
  }

  lemma UndelegateKeepsInv(i: Info, who: Address, amount: nat, now: nat)
    requires InfoInv(i) && CanExit(i, who, amount)
    ensures InfoInv(Undelegated(i, who, amount, now))
    ensures Undelegated(i, who, amount, now).totalDelegated + amount == i.totalDelegated
    ensures Undelegated(i, who, amount, now).validator == i.validator
  {
    hide Total, Principals, Rewards, ExitRewards;
    DebitKeepsInv(i, who, amount);
  }

  lemma ProcessStep(b: Book, now: nat)
    requires InfosSound(b)
    ensures InfosSound(BookProcessed(b, now)) && SumOf(BookProcessed(b, now)) == SumOf(b)
  {
    forall v | v in b.infos ensures InfoInv(Processed(b.infos[v], now)) { QueueSplits(b.infos[v].requests, now); }
    assert InfoTotals(BookProcessed(b, now).infos) == InfoTotals(b.infos);
  }

  lemma DistributeStep(b: Book, v: ValidatorID, reward: nat)
    requires InfosSound(b)
    ensures InfosSound(BookDistributed(b, v, reward)) && SumOf(BookDistributed(b, v, reward)) == SumOf(b)
  {
    hide InfoInv, Total;
    if v in b.infos {
      DistributeKeepsInv(b.infos[v], reward);
      SetInfo(b.infos, v, Distributed(b.infos[v], reward));
    }
  }

  lemma FlagStep(b: Book, v: ValidatorID, op: Op)
    requires InfosSound(b) && (op.SetActive? || op.SetJailed?)
    ensures InfosSound(BookFlagged(b, v, op)) && SumOf(BookFlagged(b, v, op)) == SumOf(b)
  {
    hide InfoInv, Total;
    if v in b.infos {
      StepKeepsInv(b.infos[v], op);
      SetInfo(b.infos, v, Step(b.infos[v], op));
    }
  }

  // ---------- Redelegation ----------

  function BookDebited(b: Book, who: Address, from: ValidatorID, amount: nat): Book
    requires CanUndelegate(b, from, who, amount)
  {
    b.(infos := b.infos[from := Debited(b.infos[from], who, amount)])
  }

  function BookLanded(b: Book, who: Address, to: ValidatorID, moved: nat, now: nat): Book {
    if moved < MIN_DELEGATION_AMOUNT then b
    else if CanAdd(InfoOrNew(b, to), moved) then b.(infos := b.infos[to := Added(InfoOrNew(b, to), who, moved, now)])
    else b.(infos := b.infos[to := InfoOrNew(b, to)])
  }

  /** Principal and rewards arrive together. */
  function Moved(b: Book, who: Address, from: ValidatorID, amount: nat): nat
    requires CanUndelegate(b, from, who, amount)
  {
    amount + ExitRewards(b.infos[from].delegations[who], amount)
  }

  /** The source is debited first, then the target is asked to take what was moved. */
  function BookRedelegated(b: Book, who: Address, from: ValidatorID, to: ValidatorID, amount: nat, now: nat): Book {
    if !CanUndelegate(b, from, who, amount) then b
    else BookLanded(BookDebited(b, who, from, amount), who, to, Moved(b, who, from, amount), now)
  }

  predicate CanLand(b: Book, to: ValidatorID, moved: nat) {
    moved >= MIN_DELEGATION_AMOUNT && CanAdd(InfoOrNew(b, to), moved)
  }

  predicate Lands(b: Book, who: Address, from: ValidatorID, to: ValidatorID, amount: nat) {
    CanUndelegate(b, from, who, amount) &&
    CanLand(BookDebited(b, who, from, amount), to, Moved(b, who, from, amount))
  }

  lemma {:induction false} DebitTotals(b: Book, who: Address, from: ValidatorID, amount: nat)
    requires InfosSound(b) && CanUndelegate(b, from, who, amount)
    ensures InfosSound(BookDebited(b, who, from, amount))
    ensures Total(InfoTotals(BookDebited(b, who, from, amount).infos)) + amount == Total(InfoTotals(b.infos))
  {
    DebitKeepsInv(b.infos[from], who, amount);
    SetInfo(b.infos, from, Debited(b.infos[from], who, amount));
  }

  lemma LandTotals(b: Book, who: Address, to: ValidatorID, moved: nat, now: nat)
    requires InfosSound(b)
    ensures InfosSound(BookLanded(b, who, to, moved, now))
    ensures Total(InfoTotals(BookLanded(b, who, to, moved, now).infos)) ==
            Total(InfoTotals(b.infos)) + if CanLand(b, to, moved) then moved else 0
  {
    var target := InfoOrNew(b, to);
    NewInfoInv(to);
    SetInfo(b.infos, to, target);
    if CanLand(b, to, moved) {
      AddKeepsInv(target, who, moved, now);
      SetInfo(b.infos, to, Added(target, who, moved, now));
    }
  }

  lemma RedelegateStep(b: Book, who: Address, from: ValidatorID, to: ValidatorID, amount: nat, now: nat)
    requires InfosSound(b)
    ensures var t := BookRedelegated(b, who, from, to, amount, now);
            && InfosSound(t) && t.totalDelegated == b.totalDelegated
            && SumOf(t) + RedelegationLost(b, who, from, to, amount) ==
               SumOf(b) + RedelegationCompounded(b, who, from, to, amount)
  {
    hide Total, InfoInv, ExitRewards, CanAdd;
    if CanUndelegate(b, from, who, amount) {
      DebitTotals(b, who, from, amount);
      LandTotals(BookDebited(b, who, from, amount), who, to, Moved(b, who, from, amount), now);
    }
  }

  /** Rewards that a landing move turns into principal. */
  function RedelegationCompounded(b: Book, who: Address, from: ValidatorID, to: ValidatorID, amount: nat): nat {
    if Lands(b, who, from, to, amount) then ExitRewards(b.infos[from].delegations[who], amount) else 0
  }

  /** Principal that has left the source of a move that does not land. */
  function RedelegationLost(b: Book, who: Address, from: ValidatorID, to: ValidatorID, amount: nat): nat {
    if CanUndelegate(b, from, who, amount) && !Lands(b, who, from, to, amount) then amount else 0
  }

  /**
   * The manager never adjusts its own total here. Its total stays the sum exactly when nothing was debited, or the
   * move landed with no rewards to compound, or it failed after debiting nothing.
   */
  lemma RedelegationDrift(b: Book, who: Address, from: ValidatorID, to: ValidatorID, amount: nat, now: nat)
    requires BookInv(b)
    ensures var t := BookRedelegated(b, who, from, to, amount, now);
            && InfosSound(t)
            && (t.totalDelegated == Total(InfoTotals(t.infos)) <==>
                  || !CanUndelegate(b, from, who, amount)
                  || (Lands(b, who, from, to, amount) && ExitRewards(b.infos[from].delegations[who], amount) == 0)
                  || (!Lands(b, who, from, to, amount) && amount == 0))
  {
    if CanUndelegate(b, from, who, amount) {
      DebitTotals(b, who, from, amount);
      LandTotals(BookDebited(b, who, from, amount), who, to, Moved(b, who, from, amount), now);
    }
  }

  // ---------- The manager's total over whole runs ----------

  datatype BookOp =
    | DelegateTo(v: ValidatorID, who: Address, amount: nat, now: nat)
    | UndelegateFrom(v: ValidatorID, who: Address, amount: nat, now: nat)
    | RedelegateTo(who: Address, from: ValidatorID, to: ValidatorID, amount: nat, now: nat)
    | ProcessAll(now: nat)
    | DistributeTo(v: ValidatorID, reward: nat)
    | Flag(v: ValidatorID, op: Op)

  function BookStep(b: Book, op: BookOp): Book {
    match op
    case DelegateTo(v, who, amount, now) => BookDelegated(b, v, who, amount, now)
    case UndelegateFrom(v, who, amount, now) => BookUndelegated(b, v, who, amount, now)
    case RedelegateTo(who, from, to, amount, now) => BookRedelegated(b, who, from, to, amount, now)
    case ProcessAll(now) => BookProcessed(b, now)
    case DistributeTo(v, reward) => BookDistributed(b, v, reward)
    case Flag(v, flag) => if flag.SetActive? || flag.SetJailed? then BookFlagged(b, v, flag) else b
  }

  function BookRun(ops: seq<BookOp>): Book {
    if ops == [] then EMPTY else BookStep(BookRun(ops[..|ops| - 1]), ops[|ops| - 1])
  }

  function Compounded(b: Book, op: BookOp): nat {
    if op.RedelegateTo? then RedelegationCompounded(b, op.who, op.from, op.to, op.amount) else 0
  }

  function Lost(b: Book, op: BookOp): nat {
    if op.RedelegateTo? then RedelegationLost(b, op.who, op.from, op.to, op.amount) else 0
  }

  /** Principal that left a validator while the manager's subtraction would have gone below zero. */
  function Uncovered(b: Book, op: BookOp): nat {
    if op.UndelegateFrom? && CanUndelegate(b, op.v, op.who, op.amount) && !Covered(b, op.amount) then op.amount else 0
  }

  /** A quantity summed over the steps of a run. */
  ghost function InAll(ops: seq<BookOp>, quantity: (Book, BookOp) -> nat): nat {
    if ops == [] then 0
    else
      var init := ops[..|ops| - 1];
      InAll(init, quantity) + quantity(BookRun(init), ops[|ops| - 1])
  }

  lemma BookStepDrift(b: Book, op: BookOp)
    requires InfosSound(b)
    ensures InfosSound(BookStep(b, op))
    ensures BookStep(b, op).totalDelegated + Compounded(b, op) + SumOf(b) ==
            b.totalDelegated + SumOf(BookStep(b, op)) + Lost(b, op) + Uncovered(b, op)
  {
    hide InfosSound, SumOf, RedelegationCompounded, RedelegationLost, BookDelegated, BookRedelegated, CanUndelegate;
    match op
    case DelegateTo(v, who, amount, now) => DelegateStep(b, v, who, amount, now);
    case UndelegateFrom(v, who, amount, now) => UndelegateStep(b, v, who, amount, now);
    case RedelegateTo(who, from, to, amount, now) => RedelegateStep(b, who, from, to, amount, now);
    case ProcessAll(now) => ProcessStep(b, now);
    case DistributeTo(v, reward) => DistributeStep(b, v, reward);
    case Flag(v, flag) => if flag.SetActive? || flag.SetJailed? { FlagStep(b, v, flag); }
  }

  /**
   * Over every run each validator's entry is sound, and the manager's total differs from their sum by exactly the
   * rewards that landing moves compounded, the principal of moves that did not land, and that of uncovered exits.
   */
  lemma {:induction false} BookRunDrift(ops: seq<BookOp>)
    ensures InfosSound(BookRun(ops))
    ensures BookRun(ops).totalDelegated + InAll(ops, Compounded) ==
            SumOf(BookRun(ops)) + InAll(ops, Lost) + InAll(ops, Uncovered)
  {
    hide InfosSound, BookStep, Compounded, Lost, Uncovered;
    if ops == [] {
      EmptyBook();
    } else {
      BookRunDrift(ops[..|ops| - 1]);
      BookStepDrift(BookRun(ops[..|ops| - 1]), ops[|ops| - 1]);
    }
  }

  lemma EmptyBook()
    ensures InfosSound(EMPTY) && SumOf(EMPTY) == 0
  {
    assert InfoTotals(map[]) == map[];
  }

  lemma BookStepKeepsInv(b: Book, op: BookOp)
    requires BookInv(b) && !op.RedelegateTo?
    ensures BookInv(BookStep(b, op))
  {
    hide InfosSound, SumOf, BookStep;
    BookStepDrift(b, op);
    if op.UndelegateFrom? { UndelegateStep(b, op.v, op.who, op.amount, op.now); }
  }

  /** Over every run without redelegation the manager's total is the sum of the validators' totals. */
  lemma {:induction false} BookRunKeepsInv(ops: seq<BookOp>)
    requires forall op :: op in ops ==> !op.RedelegateTo?
    ensures BookInv(BookRun(ops))
  {
    hide InfosSound, SumOf, BookStep;
    if ops == [] {
      EmptyBook();
    } else {
      BookRunKeepsInv(ops[..|ops| - 1]);
      BookStepKeepsInv(BookRun(ops[..|ops| - 1]), ops[|ops| - 1]);
    }
  }

  /** As long as no move has compounded a reward, the manager's total covers every accepted undelegation. */
  lemma {:induction false} CoveredWithoutCompounding(ops: seq<BookOp>, v: ValidatorID, who: Address, amount: nat)
    requires InAll(ops, Compounded) == 0 && CanUndelegate(BookRun(ops), v, who, amount)
    ensures Covered(BookRun(ops), amount)
  {
    hide InfosSound, SumOf, BookRun, InAll, CanUndelegate;
    BookRunDrift(ops);
    UndelegateStep(BookRun(ops), v, who, amount, 0);
  }

  /** After any run the manager's subtraction goes below zero exactly when compounding outweighs what stayed behind. */
  lemma {:induction false} UnderflowExactly(ops: seq<BookOp>, amount: nat)
    ensures !Covered(BookRun(ops), amount) <==>
            SumOf(BookRun(ops)) + InAll(ops, Lost) + InAll(ops, Uncovered) < amount + InAll(ops, Compounded)
  {
    hide InfosSound, SumOf, BookRun, InAll;
    BookRunDrift(ops);
  }

  // ---------- Rewards over whole runs of the manager ----------

  /** The rewards accumulated with one validator. */
  ghost function RewardsOf(i: Info): nat {
    Total(Rewards(i.delegations))
  }

  ghost function RewardTotals(infos: map<ValidatorID, Info>): map<ValidatorID, nat> {
    map v | v in infos :: RewardsOf(infos[v])
  }

  ghost function AllRewards(b: Book): nat {
    Total(RewardTotals(b.infos))
  }

  ghost function RewardsCredited(b: Book, op: BookOp): nat {
    if op.DistributeTo? && op.v in b.infos && b.infos[op.v].totalDelegated > 0
    then Total(RewardShares(b.infos[op.v], op.reward)) else 0
  }

  /** Rewards that leave with an exit, whether or not the manager's own total covers it. */
  function RewardsCarriedOut(b: Book, op: BookOp): nat {
    if op.UndelegateFrom? && CanUndelegate(b, op.v, op.who, op.amount)
    then ExitRewards(b.infos[op.v].delegations[op.who], op.amount) else 0
  }

  /** Rewards taken from the source of a move that does not land. */
  function RewardsLost(b: Book, op: BookOp): nat {
    if op.RedelegateTo? && CanUndelegate(b, op.from, op.who, op.amount) && !Lands(b, op.who, op.from, op.to, op.amount)
    then ExitRewards(b.infos[op.from].delegations[op.who], op.amount) else 0
  }

  lemma SetRewardsOf(infos: map<ValidatorID, Info>, v: ValidatorID, i: Info)
    ensures Total(RewardTotals(infos[v := i])) + (if v in infos then RewardsOf(infos[v]) else 0) ==
            Total(RewardTotals(infos)) + RewardsOf(i)
  {
    hide RewardsOf;
    TotalUpdate(RewardTotals(infos), v, RewardsOf(i));
    assert RewardTotals(infos[v := i]) == RewardTotals(infos)[v := RewardsOf(i)];
  }

  lemma NewInfoRewards(v: ValidatorID)
    ensures RewardsOf(NewInfo(v)) == 0
  {
    assert Rewards(map[]) == map[];
  }

  lemma AddKeepsRewards(i: Info, who: Address, amount: nat, now: nat)
    requires InfoInv(i) && CanAdd(i, amount) && amount > 0
    ensures RewardsOf(Added(i, who, amount, now)) == RewardsOf(i)
  {
    hide Total, Rewards, Principals;
    AddKeepsInv(i, who, amount, now);
  }

  lemma DelegateRewards(b: Book, v: ValidatorID, who: Address, amount: nat, now: nat)
    requires InfosSound(b)
    ensures AllRewards(BookDelegated(b, v, who, amount, now)) == AllRewards(b)
  {
    hide RewardsOf, Total, InfoInv, Added, CanAdd;
    var i := InfoOrNew(b, v);
    NewInfoInv(v);
    NewInfoRewards(v);
    if amount >= MIN_DELEGATION_AMOUNT {
      SetRewardsOf(b.infos, v, i);
      if CanAdd(i, amount) {
        AddKeepsRewards(i, who, amount, now);
        SetRewardsOf(b.infos, v, Added(i, who, amount, now));
      }
    }
  }

  /** An exit or a move takes exactly the rewards it reports from its source. */
  lemma DebitRewards(infos: map<ValidatorID, Info>, v: ValidatorID, who: Address, amount: nat, t: Info)
    requires v in infos && InfoInv(infos[v]) && CanExit(infos[v], who, amount)
    requires t.delegations == Debited(infos[v], who, amount).delegations
    ensures Total(RewardTotals(infos[v := t])) + ExitRewards(infos[v].delegations[who], amount) ==
            Total(RewardTotals(infos))
  {
    DebitedRewards(infos[v], who, amount);
    SameDelegationsSameRewards(t, Debited(infos[v], who, amount));
    hide Total, InfoInv, Rewards, Debited, ExitRewards, RewardsOf;
    SetRewardsOf(infos, v, t);
  }

  lemma DebitedRewards(i: Info, who: Address, amount: nat)
    requires InfoInv(i) && CanExit(i, who, amount)
    ensures RewardsOf(Debited(i, who, amount)) + ExitRewards(i.delegations[who], amount) == RewardsOf(i)
  {
    hide Total, Rewards, Principals, ExitRewards;
    DebitKeepsInv(i, who, amount);
  }

  lemma SameDelegationsSameRewards(i: Info, j: Info)
    requires i.delegations == j.delegations
    ensures RewardsOf(i) == RewardsOf(j)
  {
  }

  lemma UndelegateRewards(b: Book, op: BookOp)
    requires InfosSound(b) && op.UndelegateFrom?
    ensures AllRewards(BookStep(b, op)) + RewardsCarriedOut(b, op) == AllRewards(b)
  {
    hide Total, InfoInv, Debited, ExitRewards, RewardsOf;
    if CanUndelegate(b, op.v, op.who, op.amount) {
      DebitRewards(b.infos, op.v, op.who, op.amount, Undelegated(b.infos[op.v], op.who, op.amount, op.now));
    }
  }

  lemma LandRewards(b: Book, who: Address, to: ValidatorID, moved: nat, now: nat)
    requires InfosSound(b)
    ensures AllRewards(BookLanded(b, who, to, moved, now)) == AllRewards(b)
  {
    hide RewardsOf, Total, InfoInv, Added, CanAdd;
    var i := InfoOrNew(b, to);
    NewInfoInv(to);
    NewInfoRewards(to);
    if moved >= MIN_DELEGATION_AMOUNT {
      SetRewardsOf(b.infos, to, i);
      if CanAdd(i, moved) {
        AddKeepsRewards(i, who, moved, now);
        SetRewardsOf(b.infos, to, Added(i, who, moved, now));
      }
    }
  }

  lemma RedelegateRewards(b: Book, op: BookOp)
    requires InfosSound(b) && op.RedelegateTo?
    ensures AllRewards(BookStep(b, op)) + Compounded(b, op) + RewardsLost(b, op) == AllRewards(b)
  {
    hide Total, InfoInv, Debited, ExitRewards, RewardsOf, BookLanded, CanLand, InfosSound;
    if CanUndelegate(b, op.from, op.who, op.amount) {
      EntrySound(b, op.from);
      DebitRewards(b.infos, op.from, op.who, op.amount, Debited(b.infos[op.from], op.who, op.amount));
      DebitTotals(b, op.who, op.from, op.amount);
      LandRewards(BookDebited(b, op.who, op.from, op.amount), op.who, op.to,
                  Moved(b, op.who, op.from, op.amount), op.now);
    }
  }

  lemma EntrySound(b: Book, v: ValidatorID)
    requires InfosSound(b) && v in b.infos
    ensures InfoInv(b.infos[v])
  {
  }

  lemma DistributeRewardsStep(b: Book, op: BookOp)
    requires InfosSound(b) && op.DistributeTo?
    ensures AllRewards(BookStep(b, op)) == AllRewards(b) + RewardsCredited(b, op)
  {
    hide Total, Rewards, Principals, RewardShares;
    if op.v in b.infos {
      DistributeKeepsInv(b.infos[op.v], op.reward);
      SetRewardsOf(b.infos, op.v, Distributed(b.infos[op.v], op.reward));
    }
  }

  lemma OtherRewards(b: Book, op: BookOp)
    requires op.ProcessAll? || op.Flag?
    ensures AllRewards(BookStep(b, op)) == AllRewards(b)
  {
    hide Total, Waiting;
    assert RewardTotals(BookStep(b, op).infos) == RewardTotals(b.infos);
  }

  lemma BookStepRewards(b: Book, op: BookOp)
    requires InfosSound(b)
    ensures AllRewards(BookStep(b, op)) + RewardsCarriedOut(b, op) + Compounded(b, op) + RewardsLost(b, op) ==
            AllRewards(b) + RewardsCredited(b, op)
  {
    hide InfosSound, AllRewards, Total, CanUndelegate, Lands, ExitRewards, RewardShares, BookDelegated;
    match op
    case DelegateTo(v, who, amount, now) => DelegateRewards(b, v, who, amount, now);
    case UndelegateFrom(_, _, _, _) => UndelegateRewards(b, op);
    case RedelegateTo(_, _, _, _, _) => RedelegateRewards(b, op);
    case ProcessAll(_) => OtherRewards(b, op);
    case DistributeTo(_, _) => DistributeRewardsStep(b, op);
    case Flag(_, _) => OtherRewards(b, op);
  }

  /**
   * Over every run the rewards credited are still accumulated, or were carried out by exits, compounded by moves
   * that landed, or lost with moves that were refused.
   */
  lemma {:induction false} BookRunRewards(ops: seq<BookOp>)
    ensures InAll(ops, RewardsCredited) ==
            AllRewards(BookRun(ops)) + InAll(ops, RewardsCarriedOut) + InAll(ops, Compounded) + InAll(ops, RewardsLost)
  {
    hide AllRewards, BookStep, RewardsCredited, RewardsCarriedOut, Compounded, RewardsLost;
    if ops == [] {
      EmptyRewards();
    } else {
      var init := ops[..|ops| - 1];
      BookRunRewards(init);
      BookRunDrift(init);
      BookStepRewards(BookRun(init), ops[|ops| - 1]);
    }
  }

  lemma EmptyRewards()
    ensures AllRewards(EMPTY) == 0
  {
    assert RewardTotals(map[]) == map[];
  }

  // ---------- An undelegation the manager's total does not cover ----------

  function Compounding(who: Address, from: ValidatorID, to: ValidatorID, now: nat): seq<BookOp> {
    [DelegateTo(from, who, 10, now), DistributeTo(from, 10), RedelegateTo(who, from, to, 10, now)]
  }

  function Earned(who: Address, from: ValidatorID, now: nat): Info {
    NewInfo(from).(delegations := map[who := Delegation(10, 10, now)], totalDelegated := 10)
  }

  lemma EarnsTen(who: Address, from: ValidatorID, to: ValidatorID, now: nat)
    ensures BookRun(Compounding(who, from, to, now)[..2]) == Book(map[from := Earned(who, from, now)], 10)
  {
    var ops := Compounding(who, from, to, now);
    assert ops[..2][..1] == ops[..1] && ops[..1][..0] == [];
    var one := NewInfo(from).(delegations := map[who := Delegation(10, 0, now)], totalDelegated := 10);
    assert BookRun(ops[..1]) == Book(map[from := one], 10);
    assert Share(10, 10, 10) == 10;
    assert Distributed(one, 10) == Earned(who, from, now);
  }

  /** Ten delegated and ten earned become twenty at another validator, which the manager's ten do not cover. */
  lemma UndelegationUnderflows(who: Address, from: ValidatorID, to: ValidatorID, now: nat)
    requires from != to
    ensures var b := BookRun(Compounding(who, from, to, now));
            CanUndelegate(b, to, who, 20) && !Covered(b, 20) && SumOf(b) == 20 && b.totalDelegated == 10
  {
    var ops := Compounding(who, from, to, now);
    EarnsTen(who, from, to, now);
    var b := Book(map[from := Earned(who, from, now)], 10);
    hide BookRun, SumOf, InAll;
    assert BookRun(ops) == BookRedelegated(b, who, from, to, 10, now) by { RunThree(ops); }
    assert Debited(b.infos[from], who, 10).totalDelegated == 0;
    var t := BookRedelegated(b, who, from, to, 10, now);
    assert t.infos.Keys == {from, to};
    assert t.infos[to] == NewInfo(to).(delegations := map[who := Delegation(20, 0, now)], totalDelegated := 20);
    SumOfTwo(t, from, to);
  }

  /** A move below the minimum is refused after the source was debited: the principal is in no entry and no queue. */
  lemma RefusedMoveLosesPrincipal(who: Address, from: ValidatorID, to: ValidatorID, now: nat)
    ensures var b := BookRun([DelegateTo(from, who, 10, now), RedelegateTo(who, from, to, 5, now)]);
            && b.infos.Keys == {from} && b.infos[from].requests == []
            && SumOf(b) == 5 && b.totalDelegated == 10
  {
    var ops := [DelegateTo(from, who, 10, now), RedelegateTo(who, from, to, 5, now)];
    assert ops[..1][..0] == [];
    var one := NewInfo(from).(delegations := map[who := Delegation(10, 0, now)], totalDelegated := 10);
    var b := Book(map[from := one], 10);
    assert BookRun(ops[..1]) == b;
    assert Share(0, 5, 10) == 0;
    assert Debited(one, who, 5).totalDelegated == 5;
    var t := BookRedelegated(b, who, from, to, 5, now);
    assert BookRun(ops) == t;
    assert t.infos == map[from := Debited(one, who, 5)];
    TotalRemove(InfoTotals(t.infos), from);
    assert InfoTotals(t.infos) - {from} == map[];
  }

  lemma RunThree(ops: seq<BookOp>)
    requires |ops| == 3
    ensures BookRun(ops) == BookStep(BookRun(ops[..2]), ops[2])
  {
  }

  lemma SumOfTwo(b: Book, v: ValidatorID, w: ValidatorID)
    requires v != w && b.infos.Keys == {v, w}
    ensures SumOf(b) == b.infos[v].totalDelegated + b.infos[w].totalDelegated
  {
    TotalRemove(InfoTotals(b.infos), v);
    TotalRemove(InfoTotals(b.infos) - {v}, w);
    assert InfoTotals(b.infos) - {v} - {w} == map[];
  }
}
