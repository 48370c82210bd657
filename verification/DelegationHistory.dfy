/** What a run of the delegation ledger says about each delegator, in terms of its operations. */
module DelegationHistory {
  import opened Arithmetic
  import opened Collections
  import opened Quorum
  import opened UnbondingQueue
  import opened DelegationSpec

  // ---------- One operation on one validator's entry ----------

  function PrincipalOf(i: Info, who: Address): nat {
    if who in i.delegations then i.delegations[who].amount else 0
  }

  function RewardOf(i: Info, who: Address): nat {
    if who in i.delegations then i.delegations[who].rewards else 0
  }

  /** `part` is the share of `whole` that `amount` is of `total`, rounded down. */
  predicate FloorShare(part: nat, whole: nat, amount: nat, total: nat) {
    part * total <= whole * amount < (part + 1) * total
  }

  lemma ShareIsFloor(whole: nat, amount: nat, total: nat)
    requires total > 0
    ensures FloorShare(Share(whole, amount, total), whole, amount, total)
  {
    DivideParts(whole * amount, total);
  }

  /** Everybody but `who`, and everything but the delegations and their total, is as before. */
  ghost predicate OthersKept(i: Info, t: Info, who: Address) {
    && t.validator == i.validator && t.isActive == i.isActive && t.isJailed == i.isJailed
    && forall x :: x != who ==>
        && (x in t.delegations <==> x in i.delegations)
        && (x in i.delegations ==> t.delegations[x] == i.delegations[x])
  }

  /** A delegation is taken exactly when it is large enough, welcome and under the cap; it raises one amount. */
  lemma DelegateExactly(i: Info, who: Address, amount: nat, now: nat)
    ensures var t := Step(i, Delegate(who, amount, now));
            if amount >= 10 && i.isActive && !i.isJailed && i.totalDelegated + amount <= 10_000_000
            then
              && OthersKept(i, t, who) && t.requests == i.requests && who in t.delegations
              && t.totalDelegated == i.totalDelegated + amount
              && PrincipalOf(t, who) == PrincipalOf(i, who) + amount && RewardOf(t, who) == RewardOf(i, who)
              && t.delegations[who].delegatedAt == if who in i.delegations then i.delegations[who].delegatedAt else now
            else t == i
  {
  }

  /** What taking `amount` out does: the last unit takes all rewards along, a part its share rounded down. */
  ghost predicate Exits(i: Info, t: Info, who: Address, amount: nat, rewards: nat) {
    && who in i.delegations && OthersKept(i, t, who)
    && t.totalDelegated + amount == i.totalDelegated
    && PrincipalOf(t, who) + amount == PrincipalOf(i, who) && RewardOf(t, who) + rewards == RewardOf(i, who)
    && (who in t.delegations <==> amount < PrincipalOf(i, who))
    && (who in t.delegations ==> t.delegations[who].delegatedAt == i.delegations[who].delegatedAt)
    && (amount == PrincipalOf(i, who) || FloorShare(rewards, RewardOf(i, who), amount, PrincipalOf(i, who)))
  }

  lemma DebitExits(i: Info, who: Address, amount: nat)
    requires InfoInv(i) && CanExit(i, who, amount)
    ensures Exits(i, Debited(i, who, amount), who, amount, ExitRewards(i.delegations[who], amount))
    ensures Debited(i, who, amount).requests == i.requests
  {
    hide Total, Principals, Rewards, ExitRewards, FloorShare;
    DebitKeepsInv(i, who, amount);
    PartIsFloor(i.delegations[who], amount);
  }

  lemma PartIsFloor(d: Delegation, amount: nat)
    requires amount <= d.amount
    ensures amount == d.amount ==> ExitRewards(d, amount) == d.rewards
    ensures amount < d.amount ==> FloorShare(ExitRewards(d, amount), d.rewards, amount, d.amount)
  {
    hide Share, FloorShare;
    if amount < d.amount { ShareIsFloor(d.rewards, amount, d.amount); }
  }

  /** An exit is taken exactly when the delegation covers it, and is queued with its amount, rewards and date. */
  lemma UndelegateExactly(i: Info, who: Address, amount: nat, now: nat) returns (rewards: nat)
    requires InfoInv(i)
    ensures var t := Step(i, Undelegate(who, amount, now));
            if who in i.delegations && amount <= i.delegations[who].amount
            then
              && Exits(i, t, who, amount, rewards)
              && t.requests == i.requests +
                   [Request(Exit(who, i.validator, amount, rewards), now, now + 604_800, false)]
            else t == i
  {
    rewards := 0;
    if CanExit(i, who, amount) {
      rewards := ExitRewards(i.delegations[who], amount);
      DebitExits(i, who, amount);
      hide InfoInv, Debited, ExitRewards, FloorShare;
      assert OthersKept(Debited(i, who, amount), Undelegated(i, who, amount, now), who);
    }
  }

  lemma RedelegateExactly(i: Info, who: Address, amount: nat) returns (rewards: nat)
    requires InfoInv(i)
    ensures var t := Step(i, Redelegate(who, amount));
            if who in i.delegations && amount <= i.delegations[who].amount
            then Exits(i, t, who, amount, rewards) && t.requests == i.requests
            else t == i
  {
    rewards := 0;
    if CanExit(i, who, amount) {
      rewards := ExitRewards(i.delegations[who], amount);
      DebitExits(i, who, amount);
    }
  }

  /** A distribution credits every delegator its share of the reward, rounded down, and changes nothing else. */
  lemma DistributeExactly(i: Info, reward: nat, who: Address) returns (credit: nat)
    ensures var t := Step(i, Distribute(reward));
            && t.delegations.Keys == i.delegations.Keys && PrincipalOf(t, who) == PrincipalOf(i, who)
            && RewardOf(t, who) == RewardOf(i, who) + credit
            && (who in i.delegations && i.totalDelegated > 0 ==>
                  FloorShare(credit, reward, i.delegations[who].amount, i.totalDelegated))
            && (who in i.delegations ==> t.delegations[who].delegatedAt == i.delegations[who].delegatedAt)
            && t.totalDelegated == i.totalDelegated && t.requests == i.requests
            && t.isActive == i.isActive && t.isJailed == i.isJailed && t.validator == i.validator
  {
    credit := 0;
    if who in i.delegations && i.totalDelegated > 0 {
      credit := Share(reward, i.delegations[who].amount, i.totalDelegated);
      ShareIsFloor(reward, i.delegations[who].amount, i.totalDelegated);
    }
  }

  /** Processing leaves exactly the requests younger than seven days and touches nothing else. */
  lemma ProcessExactly(i: Info, now: nat)
    requires InfoInv(i)
    ensures var t := Step(i, Process(now));
            && t == i.(requests := t.requests)
            && forall r :: r in t.requests <==> r in i.requests && now < r.requestedAt + 604_800
  {
    QueueSplits(i.requests, now);
  }

  // ---------- Flags ----------

  function LastActive(ops: seq<Op>): bool {
    if ops == [] then true
    else if ops[|ops| - 1].SetActive? then ops[|ops| - 1].active
    else LastActive(ops[..|ops| - 1])
  }

  function LastJailed(ops: seq<Op>): bool {
    if ops == [] then false
    else if ops[|ops| - 1].SetJailed? then ops[|ops| - 1].jailed
    else LastJailed(ops[..|ops| - 1])
  }

  lemma {:induction false} FlagsExactly(v: ValidatorID, ops: seq<Op>)
    ensures Run(v, ops).isActive == LastActive(ops) && Run(v, ops).isJailed == LastJailed(ops)
    ensures Run(v, ops).validator == v
  {
    hide Share, Waiting;
    if ops != [] { FlagsExactly(v, ops[..|ops| - 1]); }
  }

  // ---------- One delegator over whole runs ----------

  ghost function Joined(who: Address): (Info, Op) -> nat {
    (i: Info, op: Op) =>
      if && op.Delegate? && op.who == who && op.amount >= 10 && i.isActive && !i.isJailed
         && i.totalDelegated + op.amount <= 10_000_000
      then op.amount else 0
  }

  ghost function Left(who: Address): (Info, Op) -> nat {
    (i: Info, op: Op) =>
      if (op.Undelegate? || op.Redelegate?) && op.who == who && op.amount <= PrincipalOf(i, who) then op.amount else 0
  }

  lemma StepPrincipal(i: Info, op: Op, who: Address)
    requires InfoInv(i)
    ensures PrincipalOf(Step(i, op), who) + Left(who)(i, op) == PrincipalOf(i, who) + Joined(who)(i, op)
  {
    hide InfoInv, Exits, Share, FloorShare;
    match op
    case Delegate(x, amount, now) => DelegateExactly(i, x, amount, now);
    case Undelegate(x, amount, now) =>
      var rewards := UndelegateExactly(i, x, amount, now);
      if CanExit(i, x, amount) { ExitsPrincipal(i, Step(i, op), x, amount, rewards, who); }
    case Redelegate(x, amount) =>
      var rewards := RedelegateExactly(i, x, amount);
      if CanExit(i, x, amount) { ExitsPrincipal(i, Step(i, op), x, amount, rewards, who); }
    case Process(_) =>
    case Distribute(reward) => var credit := DistributeExactly(i, reward, who);
    case SetActive(_) =>
    case SetJailed(_) =>
  }

  lemma ExitsPrincipal(i: Info, t: Info, x: Address, amount: nat, rewards: nat, who: Address)
    requires Exits(i, t, x, amount, rewards)
    ensures PrincipalOf(t, who) + (if x == who then amount else 0) == PrincipalOf(i, who)
  {
  }

  /** Over every run what a delegator put in is what it still has plus what it took out. */
  lemma {:induction false} PrincipalIsAccounted(v: ValidatorID, ops: seq<Op>, who: Address)
    ensures Accumulated(v, ops, Joined(who)) == PrincipalOf(Run(v, ops), who) + Accumulated(v, ops, Left(who))
  {
    hide Step, InfoInv;
    if ops != [] {
      var init := ops[..|ops| - 1];
      PrincipalIsAccounted(v, init, who);
      RunKeepsInv(v, init);
      StepPrincipal(Run(v, init), ops[|ops| - 1], who);
    }
  }

  // ---------- The queue over whole runs ----------

  /** A quantity summed over the requests of a queue. */
  ghost function InQueue(rs: seq<Request<Exit>>, quantity: Exit -> nat): nat {
    if rs == [] then 0 else InQueue(rs[..|rs| - 1], quantity) + quantity(rs[|rs| - 1].claim)
  }

  /** The same over those that are at least seven days old. */
  ghost function DueInQueue(rs: seq<Request<Exit>>, now: nat, quantity: Exit -> nat): nat {
    if rs == [] then 0
    else
      DueInQueue(rs[..|rs| - 1], now, quantity) +
      if now >= rs[|rs| - 1].requestedAt + 604_800 then quantity(rs[|rs| - 1].claim) else 0
  }

  lemma InQueueAppend(rs: seq<Request<Exit>>, r: Request<Exit>, quantity: Exit -> nat)
    ensures InQueue(rs + [r], quantity) == InQueue(rs, quantity) + quantity(r.claim)
  {
    assert (rs + [r])[..|rs|] == rs;
  }

  lemma {:induction false} WaitingAndDue(rs: seq<Request<Exit>>, now: nat, quantity: Exit -> nat)
    requires Queued(rs)
    ensures InQueue(rs, quantity) == InQueue(Waiting(rs, now), quantity) + DueInQueue(rs, now, quantity)
  {
    if rs != [] {
      var init, r := rs[..|rs| - 1], rs[|rs| - 1];
      WaitingAndDue(init, now, quantity);
      InQueueAppend(Waiting(init, now), r, quantity);
      assert Waiting(init, now) + [] == Waiting(init, now);
      assert !r.completed && r.unbondsAt == r.requestedAt + 604_800 by { assert r in rs; }
    }
  }

  /** What enters the queue: an exit's amount, or the rewards its delegation loses. */
  ghost function EnqueuedBy(i: Info, op: Op, quantity: Exit -> nat): nat {
    if op.Undelegate? && op.who in i.delegations && op.amount <= i.delegations[op.who].amount
    then quantity(Exit(op.who, i.validator, op.amount, Minus(RewardOf(i, op.who), RewardOf(Step(i, op), op.who))))
    else 0
  }

  ghost function Enqueued(quantity: Exit -> nat): (Info, Op) -> nat {
    (i: Info, op: Op) => EnqueuedBy(i, op, quantity)
  }

  ghost function Dequeued(quantity: Exit -> nat): (Info, Op) -> nat {
    (i: Info, op: Op) => if op.Process? then DueInQueue(i.requests, op.now, quantity) else 0
  }

  lemma StepQueue(i: Info, op: Op, quantity: Exit -> nat)
    requires InfoInv(i)
    ensures InQueue(Step(i, op).requests, quantity) + Dequeued(quantity)(i, op) ==
            InQueue(i.requests, quantity) + Enqueued(quantity)(i, op)
  {
    match op
    case Delegate(x, amount, now) => DelegateExactly(i, x, amount, now);
    case Undelegate(x, amount, now) =>
      var rewards := UndelegateExactly(i, x, amount, now);
      if CanExit(i, x, amount) {
        ExitTakes(i, Step(i, op), x, amount, rewards);
        InQueueAppend(i.requests, Request(Exit(x, i.validator, amount, rewards), now, now + 604_800, false), quantity);
      }
    case Redelegate(x, amount) => var rewards := RedelegateExactly(i, x, amount);
    case Process(now) => WaitingAndDue(i.requests, now, quantity);
    case Distribute(_) =>
    case SetActive(_) =>
    case SetJailed(_) =>
  }

  lemma ExitTakes(i: Info, t: Info, who: Address, amount: nat, rewards: nat)
    requires Exits(i, t, who, amount, rewards)
    ensures rewards == Minus(RewardOf(i, who), RewardOf(t, who))
  {
  }

  /** Over every run, whatever entered the queue is still in it or was at least seven days old when processed. */
  lemma {:induction false} QueueIsAccounted(v: ValidatorID, ops: seq<Op>, quantity: Exit -> nat)
    ensures Accumulated(v, ops, Enqueued(quantity)) ==
            InQueue(Run(v, ops).requests, quantity) + Accumulated(v, ops, Dequeued(quantity))
  {
    hide Step, InfoInv;
    if ops != [] {
      var init := ops[..|ops| - 1];
      QueueIsAccounted(v, init, quantity);
      RunKeepsInv(v, init);
      StepQueue(Run(v, init), ops[|ops| - 1], quantity);
    }
  }

  // ---------- Each validator's entry is a run of its own ----------

  /** What an operation of the manager asks of `v`; a move that was debited arrives as a delegation. */
  function OpsFor(b: Book, op: BookOp, v: ValidatorID): seq<Op> {
    match op
    case DelegateTo(x, who, amount, now) => if x == v then [Delegate(who, amount, now)] else []
    case UndelegateFrom(x, who, amount, now) => if x == v then [Undelegate(who, amount, now)] else []
    case RedelegateTo(who, from, to, amount, now) =>
      (if from == v then [Redelegate(who, amount)] else []) +
      (if to == v && CanUndelegate(b, from, who, amount)
       then [Delegate(who, amount + ExitRewards(b.infos[from].delegations[who], amount), now)] else [])
    case ProcessAll(now) => [Process(now)]
    case DistributeTo(x, reward) => if x == v then [Distribute(reward)] else []
    case Flag(x, flag) => if x == v && (flag.SetActive? || flag.SetJailed?) && v in b.infos then [flag] else []
  }

  function OpsOf(ops: seq<BookOp>, v: ValidatorID): seq<Op> {
    if ops == [] then []
    else OpsOf(ops[..|ops| - 1], v) + OpsFor(BookRun(ops[..|ops| - 1]), ops[|ops| - 1], v)
  }

  function After(i: Info, ops: seq<Op>): Info {
    if ops == [] then i else Step(After(i, ops[..|ops| - 1]), ops[|ops| - 1])
  }

  lemma {:induction false} RunAfter(v: ValidatorID, ops: seq<Op>, more: seq<Op>)
    ensures Run(v, ops + more) == After(Run(v, ops), more)
    decreases |more|
  {
    if more == [] {
      assert ops + more == ops;
    } else {
      RunAfter(v, ops, more[..|more| - 1]);
      assert (ops + more)[..|ops + more| - 1] == ops + more[..|more| - 1];
    }
  }

  lemma AfterOne(i: Info, op: Op)
    ensures After(i, [op]) == Step(i, op)
  {
    assert [op][..0] == [];
  }

  lemma AfterTwo(i: Info, op: Op, next: Op)
    ensures After(i, [op] + [next]) == Step(Step(i, op), next)
  {
    assert ([op] + [next])[..1] == [op];
    AfterOne(i, op);
  }

  lemma NothingToProcess(v: ValidatorID, op: Op)
    requires op.Process? || op.Distribute? || op.Undelegate? || op.Redelegate?
    ensures Step(NewInfo(v), op) == NewInfo(v)
  {
  }

  lemma StepEntry(b: Book, op: BookOp, v: ValidatorID)
    ensures InfoOrNew(BookStep(b, op), v) == After(InfoOrNew(b, v), OpsFor(b, op, v))
  {
    hide Share, Waiting, Added, Debited, Undelegated, CanAdd, Distributed;
    var i := InfoOrNew(b, v);
    match op
    case DelegateTo(x, who, amount, now) => AfterOne(i, Delegate(who, amount, now));
    case UndelegateFrom(x, who, amount, now) => AfterOne(i, Undelegate(who, amount, now)); ExitNew(v, who, amount);
    case RedelegateTo(who, from, to, amount, now) => RedelegateEntry(b, who, from, to, amount, now, v);
    case ProcessAll(now) => AfterOne(i, Process(now)); NothingToProcess(v, Process(now));
    case DistributeTo(x, reward) => AfterOne(i, Distribute(reward)); NothingToProcess(v, Distribute(reward));
    case Flag(x, flag) => AfterOne(i, flag);
  }

  lemma ExitNew(v: ValidatorID, who: Address, amount: nat)
    ensures !CanExit(NewInfo(v), who, amount)
  {
  }

  lemma RedelegateEntry(b: Book, who: Address, from: ValidatorID, to: ValidatorID, amount: nat, now: nat,
                        v: ValidatorID)
    ensures InfoOrNew(BookRedelegated(b, who, from, to, amount, now), v) ==
            After(InfoOrNew(b, v), OpsFor(b, RedelegateTo(who, from, to, amount, now), v))
  {
    hide Share, Added, Debited, CanAdd, ExitRewards;
    var i := InfoOrNew(b, v);
    ExitNew(v, who, amount);
    if CanUndelegate(b, from, who, amount) {
      var moved := amount + ExitRewards(b.infos[from].delegations[who], amount);
      AfterOne(i, Redelegate(who, amount));
      AfterOne(i, Delegate(who, moved, now));
      AfterTwo(i, Redelegate(who, amount), Delegate(who, moved, now));
      if from == v && to != v {
        assert OpsFor(b, RedelegateTo(who, from, to, amount, now), v) == [Redelegate(who, amount)];
      }
      if from != v && to == v {
        assert OpsFor(b, RedelegateTo(who, from, to, amount, now), v) == [Delegate(who, moved, now)];
      }
    } else {
      AfterOne(i, Redelegate(who, amount));
      if from == v { assert OpsFor(b, RedelegateTo(who, from, to, amount, now), v) == [Redelegate(who, amount)]; }
    }
  }

  /** Over every run of the manager each validator's entry is the run of the operations addressed to it. */
  lemma {:induction false} EntryIsRun(ops: seq<BookOp>, v: ValidatorID)
    ensures InfoOrNew(BookRun(ops), v) == Run(v, OpsOf(ops, v))
  {
    hide BookStep, Step, OpsFor;
    if ops != [] {
      var init := ops[..|ops| - 1];
      EntryIsRun(init, v);
      StepEntry(BookRun(init), ops[|ops| - 1], v);
      RunAfter(v, OpsOf(init, v), OpsFor(BookRun(init), ops[|ops| - 1], v));
    } else {
      EmptyEntry(v);
    }
  }

  lemma EmptyEntry(v: ValidatorID)
    ensures InfoOrNew(EMPTY, v) == Run(v, OpsOf([], v))
  {
  }

  // ---------- Undelegation requests over whole runs of the manager ----------

  /** `who` asked to take that amount out of `v` at that time. */
  ghost predicate Asked(ops: seq<BookOp>, v: ValidatorID, who: Address, amount: nat, time: nat) {
    exists j :: 0 <= j < |ops| && ops[j] == UndelegateFrom(v, who, amount, time)
  }

  lemma AskedEarlier(ops: seq<BookOp>, v: ValidatorID, who: Address, amount: nat, time: nat)
    requires ops != []
    ensures Asked(ops, v, who, amount, time) <==>
            Asked(ops[..|ops| - 1], v, who, amount, time) || ops[|ops| - 1] == UndelegateFrom(v, who, amount, time)
  {
    var init, n := ops[..|ops| - 1], |ops| - 1;
    if j :| 0 <= j < |init| && init[j] == UndelegateFrom(v, who, amount, time) {
      assert ops[j] == UndelegateFrom(v, who, amount, time);
    }
    if j :| 0 <= j < |ops| && ops[j] == UndelegateFrom(v, who, amount, time) {
      if j < n { assert init[j] == UndelegateFrom(v, who, amount, time); }
    }
  }

  ghost predicate InQueueOf(b: Book, v: ValidatorID, r: Request<Exit>) {
    v in b.infos && r in b.infos[v].requests
  }

  /** A queued request was queued before, or the operation asked for it. */
  lemma StepQueues(b: Book, op: BookOp, v: ValidatorID, r: Request<Exit>)
    requires InfosSound(b) && InQueueOf(BookStep(b, op), v, r)
    ensures || InQueueOf(b, v, r)
            || (op == UndelegateFrom(v, r.claim.delegator, r.claim.amount, r.requestedAt) && r.claim.validator == v)
  {
    hide Share, ExitRewards, CanAdd, Total, Principals;
    if op.ProcessAll? { QueueSplits(b.infos[v].requests, op.now); }
  }

  /** Over every run each queued undelegation was asked for, and is due seven days after that. */
  lemma {:induction false} QueuedWasAsked(ops: seq<BookOp>, v: ValidatorID, r: Request<Exit>)
    requires InQueueOf(BookRun(ops), v, r)
    ensures Asked(ops, v, r.claim.delegator, r.claim.amount, r.requestedAt)
    ensures r.claim.validator == v && !r.completed && r.unbondsAt == r.requestedAt + 604_800
  {
    hide BookStep, Asked, InQueueOf;
    NobodyAtFirst(ops, v, r);
    BookRunDrift(ops);
    QueueSound(BookRun(ops), v, r);
    var init, op := ops[..|ops| - 1], ops[|ops| - 1];
    BookRunDrift(init);
    StepQueues(BookRun(init), op, v, r);
    AskedEarlier(ops, v, r.claim.delegator, r.claim.amount, r.requestedAt);
    if InQueueOf(BookRun(init), v, r) { QueuedWasAsked(init, v, r); }
  }

  lemma NobodyAtFirst(ops: seq<BookOp>, v: ValidatorID, r: Request<Exit>)
    ensures InQueueOf(BookRun(ops), v, r) ==> ops != []
  {
  }

  lemma QueueSound(b: Book, v: ValidatorID, r: Request<Exit>)
    requires InfosSound(b) && InQueueOf(b, v, r)
    ensures !r.completed && r.unbondsAt == r.requestedAt + 604_800
  {
  }

  /** Whatever processing at `now` releases was asked for at least seven days before; whatever it leaves was not. */
  lemma {:induction false} ReleasedWasAsked(ops: seq<BookOp>, v: ValidatorID, now: nat)
    requires v in BookRun(ops).infos
    ensures forall r :: r in Ripened(BookRun(ops).infos[v].requests, now) ==>
              Asked(ops, v, r.claim.delegator, r.claim.amount, r.requestedAt) && now >= r.requestedAt + 604_800
    ensures forall r :: InQueueOf(BookRun(ops + [ProcessAll(now)]), v, r) <==>
              InQueueOf(BookRun(ops), v, r) && now < r.requestedAt + 604_800
  {
    hide Asked, BookRun;
    BookRunDrift(ops);
    assert InfoInv(BookRun(ops).infos[v]);
    var requests := BookRun(ops).infos[v].requests;
    QueueSplits(requests, now);
    forall r | r in Ripened(requests, now)
      ensures Asked(ops, v, r.claim.delegator, r.claim.amount, r.requestedAt) && now >= r.requestedAt + 604_800
    {
      QueuedWasAsked(ops, v, r.(completed := false));
    }
    BookRunOne(ops, ProcessAll(now));
  }

  lemma BookRunOne(ops: seq<BookOp>, op: BookOp)
    ensures BookRun(ops + [op]) == BookStep(BookRun(ops), op)
  {
    assert (ops + [op])[..|ops|] == ops;
  }
}
