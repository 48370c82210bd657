/** The mutable Mercury state: snapshots are created, collect signatures and become final. */
module Mercury {
  import opened Wrappers
  import opened Collections
  import opened ByteStrings
  import opened Quorum
  import opened AppendOnlyChain
  import opened MercurySpec
  import V = ValidatorSets
  import T = Traversal
  import FlowGraphs
  import FlowGraphSpec

  datatype Error = GraphUnsortable | ExecutionFailed | NotPending | UnknownValidator | StoreFailed

  datatype LivenessState = Healthy | Degraded | Stalled

  datatype LivenessStatus = LivenessStatus(
    state: LivenessState, activeValidators: nat, totalValidators: nat, activeStake: nat, totalStake: nat,
    averageParticipation: real, hasQuorum: bool)

  datatype ByzantineTolerance = ByzantineTolerance(
    totalStake: nat, totalValidators: nat, activeStake: nat, activeValidators: nat, maxMaliciousStake: nat,
    minHonestStake: nat, isTolerant: bool, safetyMargin: nat)

  /** The stakes of the active members outside `todo`. */
  ghost function ActiveStakes(validators: map<ValidatorID, V.ValidatorInfo>, todo: set<ValidatorID>)
    : map<ValidatorID, nat>
  {
    map v | v in validators && validators[v].active && v !in todo :: validators[v].stake
  }

  ghost function ActiveStakeOf(validators: map<ValidatorID, V.ValidatorInfo>): nat {
    Total(ActiveStakes(validators, {}))
  }

  lemma NoStakes(validators: map<ValidatorID, V.ValidatorInfo>)
    ensures ActiveStakes(validators, validators.Keys) == map[]
  {
  }

  lemma OneMoreStake(validators: map<ValidatorID, V.ValidatorInfo>, todo: set<ValidatorID>, v: ValidatorID)
    requires v in validators && v in todo
    ensures var before, after := ActiveStakes(validators, todo), ActiveStakes(validators, todo - {v});
            if validators[v].active
            then Total(after) == Total(before) + validators[v].stake && |after| == |before| + 1
            else after == before
  {
    hide Total;
    var before, after := ActiveStakes(validators, todo), ActiveStakes(validators, todo - {v});
    if validators[v].active {
      assert after == before[v := validators[v].stake];
      TotalUpdate(before, v, validators[v].stake);
      assert after.Keys == before.Keys + {v};
      assert |after.Keys| == |after| && |before.Keys| == |before|;
    } else {
      assert after == before;
    }
  }

  lemma AllActive(validators: map<ValidatorID, V.ValidatorInfo>)
    ensures |ActiveStakes(validators, {})| == |ActiveMembers(validators)|
  {
    assert ActiveStakes(validators, {}).Keys == ActiveMembers(validators);
    assert |ActiveStakes(validators, {}).Keys| == |ActiveStakes(validators, {})|;
  }

  // ---------- Participation ----------

  function ParticipationRate(info: V.ValidatorInfo): real {
    if info.snapshots == 0 then 0.0 else info.participated as real / info.snapshots as real
  }

  /** The rates of the active members outside `todo`. */
  ghost function RatesWithout(validators: map<ValidatorID, V.ValidatorInfo>, todo: set<ValidatorID>)
    : map<ValidatorID, real>
  {
    map v | v in validators && validators[v].active && v !in todo :: ParticipationRate(validators[v])
  }

  ghost function Rates(validators: map<ValidatorID, V.ValidatorInfo>): map<ValidatorID, real> {
    RatesWithout(validators, {})
  }

  lemma NoRates(validators: map<ValidatorID, V.ValidatorInfo>)
    ensures RatesWithout(validators, validators.Keys) == map[]
  {
  }

  lemma OneMoreRate(validators: map<ValidatorID, V.ValidatorInfo>, todo: set<ValidatorID>, v: ValidatorID)
    requires v in validators && v in todo
    ensures var before, after := RatesWithout(validators, todo), RatesWithout(validators, todo - {v});
            if validators[v].active
            then RealTotal(after) == RealTotal(before) + ParticipationRate(validators[v]) && |after| == |before| + 1
            else after == before
  {
    hide ParticipationRate, RealTotal;
    var before, after := RatesWithout(validators, todo), RatesWithout(validators, todo - {v});
    if validators[v].active {
      assert after == before[v := ParticipationRate(validators[v])];
      RealTotalAdd(before, v, ParticipationRate(validators[v]));
      assert after.Keys == before.Keys + {v};
      assert |after.Keys| == |after| && |before.Keys| == |before|;
    } else {
      assert after == before;
    }
  }

  ghost function AverageParticipation(validators: map<ValidatorID, V.ValidatorInfo>): real {
    if Rates(validators) == map[] then 0.0 else RealTotal(Rates(validators)) / |Rates(validators)| as real
  }

  lemma RateInRange(info: V.ValidatorInfo)
    requires info.participated <= info.snapshots
    ensures 0.0 <= ParticipationRate(info) <= 1.0
  {
    if info.snapshots > 0 { QuotientInRange(info.participated as real, info.snapshots as real); }
  }

  /** The rate is the participated fraction of the snapshots, and zero before the first. */
  lemma RateExactly(info: V.ValidatorInfo)
    ensures info.snapshots > 0 ==> ParticipationRate(info) * info.snapshots as real == info.participated as real
    ensures info.snapshots == 0 ==> ParticipationRate(info) == 0.0
  {
  }

  /** The average times the number of active members is the sum of their rates. */
  lemma AverageExactly(validators: map<ValidatorID, V.ValidatorInfo>)
    ensures AverageParticipation(validators) * |ActiveMembers(validators)| as real == RealTotal(Rates(validators))
  {
    var rates := Rates(validators);
    assert rates.Keys == ActiveMembers(validators);
    assert |rates.Keys| == |rates|;
    if rates != map[] { Divided(RealTotal(rates), |rates| as real); }
  }

  lemma Divided(total: real, n: real)
    requires n > 0.0
    ensures total / n * n == total
  {
  }

  lemma QuotientInRange(total: real, n: real)
    requires n > 0.0 && 0.0 <= total <= n
    ensures 0.0 <= total / n <= 1.0
  {
    assert total / n * n == total;
  }

  /** With no validator credited more often than there were snapshots, the average is a rate between zero and one. */
  lemma AverageInRange(validators: map<ValidatorID, V.ValidatorInfo>)
    requires V.CountersSound(validators)
    ensures 0.0 <= AverageParticipation(validators) <= 1.0
  {
    var rates := Rates(validators);
    forall v | v in rates ensures 0.0 <= rates[v] <= 1.0 { RateInRange(validators[v]); }
    RealTotalBound(rates);
    if rates != map[] { QuotientInRange(RealTotal(rates), |rates| as real); }
  }

  function ActiveMembers(validators: map<ValidatorID, V.ValidatorInfo>): set<ValidatorID> {
    set v | v in validators && validators[v].active
  }

  class MercuryProtocol {
    const validatorId: Option<ValidatorID>
    const maxTransactions: nat
    var currentSnapshot: nat
    var pendingSnapshots: map<nat, Snapshot>
    var finalizedSnapshots: map<nat, Snapshot>

    function State(): MercurySpec.State
      reads this
    {
      MercurySpec.State(currentSnapshot, pendingSnapshots, finalizedSnapshots)
    }

    ghost predicate Valid()
      reads this
    {
      Inv(State())
    }

    constructor (me: Option<ValidatorID>, maxTransactions: nat)
      ensures Valid() && State() == EMPTY && validatorId == me && this.maxTransactions == maxTransactions
    {
      validatorId, this.maxTransactions := me, maxTransactions;
      currentSnapshot, pendingSnapshots, finalizedSnapshots := 0, map[], map[];
    }

    /**
     * A snapshot of what the flow graph yields. `content` is what the execution and the clock contribute; its
     * transactions are replaced by the digests of those gathered.
     */
    method CreateSnapshot(graph: FlowGraphs.FlowGraph, digestOf: Bytes -> Digest, content: Content, executed: bool,
                          stored: bool, vset: V.ValidatorSet)
      returns (r: Result<(), Error>, ghost transactions: seq<Bytes>)
      requires Valid() && graph.Valid()
      modifies this
      ensures Valid()
      ensures r == Err(GraphUnsortable) <==> !FlowGraphSpec.Sortable(graph.State())
      ensures r == Err(GraphUnsortable) ==> State() == old(State())
      ensures r != Err(GraphUnsortable) ==>
                && T.Gathers(graph.State(), maxTransactions, transactions)
                && State() == Step(old(State()),
                                   Create(content.(transactions := T.DigestsOf(digestOf, transactions)), executed,
                                          validatorId, V.StakeTable(vset.validators), vset.totalStake))
      ensures r == if !FlowGraphSpec.Sortable(graph.State()) then Err(GraphUnsortable)
                   else if transactions == [] then Ok(())
                   else if !executed then Err(ExecutionFailed)
                   else if currentSnapshot > old(currentSnapshot) && !stored then Err(StoreFailed)
                   else Ok(())
    {
      hide Inv, FlowGraphSpec.Inv, FlowGraphSpec.Sortable, T.Gathers, Step;
      var gathered := T.GatherTransactions(graph, maxTransactions);
      transactions := [];
      if gathered.Err? { return Err(GraphUnsortable), []; }
      transactions := gathered.value;
      r := ProposeSnapshot(content.(transactions := T.DigestsOf(digestOf, gathered.value)), executed, stored, vset);
    }

    /**
     * `executed` says whether execution and signing succeed, `stored` whether the snapshot reaches the disk: a failed
     * write is reported after the state has already changed.
     */
    method ProposeSnapshot(content: Content, executed: bool, stored: bool, vset: V.ValidatorSet)
      returns (r: Result<(), Error>)
      requires Valid()
      modifies this
      ensures Valid()
      ensures State() == Step(old(State()), Create(content, executed, validatorId, V.StakeTable(vset.validators),
                                                   vset.totalStake))
      ensures r == if content.transactions == [] then Ok(())
                   else if !executed then Err(ExecutionFailed)
                   else if currentSnapshot > old(currentSnapshot) && !stored then Err(StoreFailed)
                   else Ok(())
    {
      hide Inv;
      var transactions := content.transactions;
      ghost var op := Create(content, executed, validatorId, V.StakeTable(vset.validators), vset.totalStake);
      StepKeepsInv(State(), op);
      if transactions == [] { return Ok(()); }
      if !executed { return Err(ExecutionFailed); }
      var sequence := currentSnapshot + 1;
      var previous := if sequence == 1 then ZeroDigest()
                      else if sequence - 1 in finalizedSnapshots then finalizedSnapshots[sequence - 1].digest
                      else ZeroDigest();
      var signers: seq<ValidatorID> := [];
      var weight := 0;
      if validatorId.Some? {
        if validatorId.value in vset.validators { weight := vset.validators[validatorId.value].stake; }
        signers := signers + [validatorId.value];
      }
      var snapshot := Snapshot(sequence, content.timestamp, previous, content.stateRoot, transactions, content.cycle,
                               signers, weight, content.digest);
      assert snapshot == NewSnapshot(old(State()), op);
      if HasQuorum(snapshot.stakeWeight, vset.totalStake) {
        finalizedSnapshots := finalizedSnapshots[sequence := snapshot];
        currentSnapshot := sequence;
        assert State() == Step(old(State()), op);
        if !stored { return Err(StoreFailed); }
      } else {
        pendingSnapshots := pendingSnapshots[sequence := snapshot];
      }
      r := Ok(());
    }

    /** `Ok(true)` means this signature made the snapshot final. */
    method AddSnapshotSignature(sequence: nat, validator: ValidatorID, stored: bool, vset: V.ValidatorSet)
      returns (r: Result<bool, Error>)
      requires Valid()
      modifies this
      ensures Valid()
      ensures State() == Step(old(State()),
                              AddSignature(sequence, validator, V.StakeTable(vset.validators), vset.totalStake))
      ensures r == if sequence in old(finalizedSnapshots) then Ok(false)
                   else if sequence !in old(pendingSnapshots) then Err(NotPending)
                   else if validator !in vset.validators then Err(UnknownValidator)
                   else if sequence !in finalizedSnapshots then Ok(false)
                   else if stored then Ok(true) else Err(StoreFailed)
    {
      hide Inv;
      ghost var op := AddSignature(sequence, validator, V.StakeTable(vset.validators), vset.totalStake);
      StepKeepsInv(State(), op);
      if sequence in finalizedSnapshots { return Ok(false); }
      if sequence !in pendingSnapshots { return Err(NotPending); }
      var snapshot := pendingSnapshots[sequence];
      if validator !in vset.validators { return Err(UnknownValidator); }
      WaitingIsNext(State(), op);
      SequenceOf(State(), sequence, Signed(snapshot, op));
      var signers := snapshot.signers + [validator];
      snapshot := snapshot.(signers := signers, stakeWeight := vset.CalculateStakeWeight(signers));
      if HasQuorum(snapshot.stakeWeight, vset.totalStake) {
        finalizedSnapshots := finalizedSnapshots[sequence := snapshot];
        pendingSnapshots := pendingSnapshots - {sequence};
        currentSnapshot := sequence;
        r := if stored then Ok(true) else Err(StoreFailed);
      } else {
        pendingSnapshots := pendingSnapshots[sequence := snapshot];
        r := Ok(false);
      }
    }

    /** Sum the active members' stakes and count them, in an arbitrary order. */
    static method SumActiveStake(vset: V.ValidatorSet) returns (stake: nat, count: nat)
      ensures stake == ActiveStakeOf(vset.validators) && count == |ActiveMembers(vset.validators)|
    {
      hide ActiveStakes, ActiveMembers;
      stake, count := 0, 0;
      var todo := vset.validators.Keys;
      NoStakes(vset.validators);
      while todo != {}
        invariant todo <= vset.validators.Keys
        invariant stake == Total(ActiveStakes(vset.validators, todo))
        invariant count == |ActiveStakes(vset.validators, todo)|
      {
        var v :| v in todo;
        OneMoreStake(vset.validators, todo, v);
        todo := todo - {v};
        if vset.validators[v].active { stake, count := stake + vset.validators[v].stake, count + 1; }
      }
      AllActive(vset.validators);
    }

    /** Sum the active members' participation rates, in an arbitrary order. */
    static method SumParticipation(vset: V.ValidatorSet) returns (total: real, count: nat)
      ensures total == RealTotal(Rates(vset.validators)) && count == |Rates(vset.validators)|
    {
      hide RatesWithout, ParticipationRate;
      total, count := 0.0, 0;
      var todo := vset.validators.Keys;
      NoRates(vset.validators);
      while todo != {}
        invariant todo <= vset.validators.Keys
        invariant total == RealTotal(RatesWithout(vset.validators, todo))
        invariant count == |RatesWithout(vset.validators, todo)|
      {
        var v :| v in todo;
        OneMoreRate(vset.validators, todo, v);
        todo := todo - {v};
        if vset.validators[v].active {
          total := total + ParticipationRate(vset.validators[v]);
          count := count + 1;
        }
      }
    }

    /** Progress needs a quorum of active stake; the network is healthy if the active members also take part. */
    static method CheckLiveness(vset: V.ValidatorSet) returns (status: LivenessStatus)
      ensures status.hasQuorum <==> HasQuorum(ActiveStakeOf(vset.validators), vset.totalStake)
      ensures status.state == Stalled <==> !status.hasQuorum
      ensures status.state == Healthy <==> status.hasQuorum && AverageParticipation(vset.validators) > 0.66
      ensures status.activeStake == ActiveStakeOf(vset.validators) && status.totalStake == vset.totalStake
      ensures status.activeValidators == |ActiveMembers(vset.validators)|
      ensures status.totalValidators == |vset.validators|
      ensures status.averageParticipation == AverageParticipation(vset.validators)
      ensures vset.Valid() ==> 0.0 <= status.averageParticipation <= 1.0
    {
      if vset.Valid() { AverageInRange(vset.validators); }
      var active, members := SumActiveStake(vset);
      var hasQuorum := active * 3 > vset.totalStake * 2;
      var total, count := SumParticipation(vset);
      var average := if count > 0 then total / count as real else 0.0;
      var state := if hasQuorum && average > 0.66 then Healthy else if hasQuorum then Degraded else Stalled;
      status := LivenessStatus(state, members, |vset.validators|, active, vset.totalStake, average, hasQuorum);
    }

    /** The verdict is the liveness verdict, and the margin is exactly the stake that may still drop out. */
    static method VerifyByzantineTolerance(vset: V.ValidatorSet) returns (status: ByzantineTolerance)
      ensures status.isTolerant <==> HasQuorum(ActiveStakeOf(vset.validators), vset.totalStake)
      ensures status.activeStake == ActiveStakeOf(vset.validators) && status.totalStake == vset.totalStake
      ensures status.totalValidators == |vset.validators|
      ensures status.activeValidators == |ActiveMembers(vset.validators)|
      ensures status.maxMaliciousStake == MaxMaliciousStake(vset.totalStake)
      ensures status.minHonestStake == MinHonestStake(vset.totalStake)
      ensures status.isTolerant ==>
                && status.safetyMargin <= status.activeStake
                && HasQuorum(status.activeStake - status.safetyMargin, status.totalStake)
                && !HasQuorum(status.activeStake - status.safetyMargin - 1, status.totalStake)
      ensures !status.isTolerant ==> status.safetyMargin == 0
    {
      var total := vset.totalStake;
      var minHonest := total * 2 / 3 + 1;
      var active, members := SumActiveStake(vset);
      var tolerant := active >= minHonest;
      ToleranceIsQuorum(active, total);
      status := ByzantineTolerance(total, |vset.validators|, active, members, total / 3, minHonest, tolerant,
                                   if tolerant then active - minHonest else 0);
    }
  }
}
