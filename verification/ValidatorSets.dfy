/** The validator set: stake-weighted membership, quorum checks and reconfiguration at the end of a cycle. */
module ValidatorSets {
  import opened Wrappers
  import opened Collections
  import opened ByteStrings
  import opened Quorum
  import S = StakingSpec
  import Staking
  import D = DelegationSpec
  import H = StakeHistory
  import Delegations

  datatype Error = InvalidMetadata | AlreadyMember | NotMember | NothingStaked

  datatype ValidatorInfo = ValidatorInfo(stake: nat, active: bool, participated: nat, snapshots: nat)

  datatype ChangeEvent = ChangeEvent(
    cycle: nat, added: seq<ValidatorID>, removed: seq<ValidatorID>, totalValidators: nat, totalStake: nat,
    timestamp: nat)

  datatype VSet = VSet(
    validators: map<ValidatorID, ValidatorInfo>, totalStake: nat, cycle: nat, history: seq<ChangeEvent>, minStake: nat)

  function StakeTable(validators: map<ValidatorID, ValidatorInfo>): map<ValidatorID, nat> {
    map v | v in validators :: validators[v].stake
  }

  /** Nobody takes part in more snapshots than there were. */
  ghost predicate CountersSound(validators: map<ValidatorID, ValidatorInfo>) {
    forall v :: v in validators ==> validators[v].participated <= validators[v].snapshots
  }

  /** The recorded total is the sum of the members' stakes, and their counters are sound. */
  ghost predicate Inv(s: VSet) {
    s.totalStake == Total(StakeTable(s.validators)) && CountersSound(s.validators)
  }

  lemma SetMember(validators: map<ValidatorID, ValidatorInfo>, v: ValidatorID, info: ValidatorInfo)
    ensures Total(StakeTable(validators[v := info])) + (if v in validators then validators[v].stake else 0) ==
            Total(StakeTable(validators)) + info.stake
  {
    TotalUpdate(StakeTable(validators), v, info.stake);
    assert StakeTable(validators[v := info]) == StakeTable(validators)[v := info.stake];
  }

  lemma DropMember(validators: map<ValidatorID, ValidatorInfo>, v: ValidatorID)
    requires v in validators
    ensures Total(StakeTable(validators)) == Total(StakeTable(validators - {v})) + validators[v].stake
  {
    TotalRemove(StakeTable(validators), v);
    assert StakeTable(validators - {v}) == StakeTable(validators) - {v};
  }

  // ---------- Reconfiguration ----------

  predicate MeetsMinimum(stakes: map<ValidatorID, S.Stake>, v: ValidatorID) {
    v in stakes && stakes[v].active >= S.MIN_STAKE_AMOUNT
  }

  function ActiveStake(stakes: map<ValidatorID, S.Stake>, v: ValidatorID): nat {
    if v in stakes then stakes[v].active else 0
  }

  function DelegatedStake(infos: map<ValidatorID, D.Info>, v: ValidatorID): nat {
    if v in infos then infos[v].totalDelegated else 0
  }

  function WithStake(info: ValidatorInfo, stake: nat): ValidatorInfo {
    info.(stake := stake)
  }

  function Restaked(info: ValidatorInfo, stakes: map<ValidatorID, S.Stake>, infos: map<ValidatorID, D.Info>,
                    v: ValidatorID): ValidatorInfo {
    WithStake(info, ActiveStake(stakes, v) + DelegatedStake(infos, v))
  }

  function AllRestaked(members: map<ValidatorID, ValidatorInfo>, stakes: map<ValidatorID, S.Stake>,
                       infos: map<ValidatorID, D.Info>): map<ValidatorID, ValidatorInfo> {
    map v | v in members :: Restaked(members[v], stakes, infos, v)
  }

  /** The old members that meet the minimum stake, each weighted by its own and its delegated stake. */
  function Reconfigured(validators: map<ValidatorID, ValidatorInfo>, stakes: map<ValidatorID, S.Stake>,
                        infos: map<ValidatorID, D.Info>): map<ValidatorID, ValidatorInfo> {
    map v | v in validators && MeetsMinimum(stakes, v) :: Restaked(validators[v], stakes, infos, v)
  }

  function Staked(stakes: map<ValidatorID, S.Stake>): set<ValidatorID> {
    set v | v in stakes && stakes[v].active > 0
  }

  /** What a successful reconfiguration does to the set and reports in its event. */
  ghost predicate ReconfiguredTo(s: VSet, stakes: map<ValidatorID, S.Stake>, infos: map<ValidatorID, D.Info>, t: VSet,
                                 e: ChangeEvent) {
    && t.validators == Reconfigured(s.validators, stakes, infos)
    && t.totalStake == Total(StakeTable(t.validators))
    && t == s.(validators := t.validators, totalStake := t.totalStake, history := s.history + [e])
    && NoDup(e.removed) && Elements(e.removed) == s.validators.Keys - t.validators.Keys
    && NoDup(e.added) && Elements(e.added) == Staked(stakes) - t.validators.Keys
    && e.cycle == s.cycle && e.totalValidators == |t.validators| && e.totalStake == t.totalStake
  }

  /**
   * The event's `added` list names only validators that are not in the set afterwards; a former member with some
   * stake left, but less than the minimum, is reported both as removed and as added.
   */
  lemma AddedAreNotMembers(s: VSet, stakes: map<ValidatorID, S.Stake>, infos: map<ValidatorID, D.Info>, t: VSet,
                           e: ChangeEvent)
    requires ReconfiguredTo(s, stakes, infos, t, e)
    ensures forall v :: v in e.added ==> v !in t.validators
    ensures forall v :: v in e.added && v in e.removed <==>
              v in s.validators && v in stakes && 0 < stakes[v].active < S.MIN_STAKE_AMOUNT
  {
    forall v ensures v in e.added <==> v in Elements(e.added) {}
    forall v ensures v in e.removed <==> v in Elements(e.removed) {}
  }

  /** Everybody who meets the minimum is a member afterwards exactly when everybody who meets it was one before. */
  lemma EligibleStayExactly(s: VSet, stakes: map<ValidatorID, S.Stake>, infos: map<ValidatorID, D.Info>, t: VSet,
                            e: ChangeEvent)
    requires ReconfiguredTo(s, stakes, infos, t, e)
    ensures (forall v :: MeetsMinimum(stakes, v) ==> v in t.validators) <==>
            (forall v :: MeetsMinimum(stakes, v) ==> v in s.validators)
  {
    hide MeetsMinimum;
    assert forall v :: v in t.validators <==> v in s.validators && MeetsMinimum(stakes, v);
  }

  /** What the event calls added has been added exactly when every staker was a member and meets the minimum. */
  lemma ReportIsTrueExactly(s: VSet, stakes: map<ValidatorID, S.Stake>, infos: map<ValidatorID, D.Info>, t: VSet,
                            e: ChangeEvent)
    requires ReconfiguredTo(s, stakes, infos, t, e)
    ensures (forall v :: v in e.added ==> v in t.validators) <==>
            (forall v :: v in Staked(stakes) ==> v in s.validators && MeetsMinimum(stakes, v))
  {
    hide MeetsMinimum, Staked;
    forall v ensures v in e.added <==> v in Staked(stakes) && v !in t.validators {
      assert v in e.added <==> v in Elements(e.added);
    }
    assert forall v :: v in t.validators <==> v in s.validators && MeetsMinimum(stakes, v);
  }

  /** The stake delegated to `v`, summed over its delegators. */
  ghost function DelegatedTo(ops: seq<D.BookOp>, v: ValidatorID): nat {
    Total(D.Principals(D.InfoOrNew(D.BookRun(ops), v).delegations))
  }

  lemma DelegatedIsSum(ops: seq<D.BookOp>, v: ValidatorID)
    ensures DelegatedStake(D.BookRun(ops).infos, v) == DelegatedTo(ops, v)
  {
    hide D.BookRun;
    D.BookRunDrift(ops);
    D.NewInfoInv(v);
  }

  /**
   * With the ledgers as they stand after two runs: members are the old members that hold ten thousand after what they
   * unstaked, each weighs that plus what is delegated to it, and the event lists who left and who stakes outside.
   */
  lemma MembersExactly(s: VSet, stakeOps: seq<S.Op>, delegateOps: seq<D.BookOp>, t: VSet, e: ChangeEvent,
                       v: ValidatorID)
    requires ReconfiguredTo(s, S.Run(stakeOps).stakes, D.BookRun(delegateOps).infos, t, e)
    ensures v in t.validators <==>
              v in s.validators && S.DepositedBy(stakeOps, v) >= H.UnstakedBy(stakeOps, v) + 10_000
    ensures v in t.validators ==>
              && t.validators[v].stake + H.UnstakedBy(stakeOps, v) ==
                 S.DepositedBy(stakeOps, v) + DelegatedTo(delegateOps, v)
              && t.validators[v] == s.validators[v].(stake := t.validators[v].stake)
    ensures v in e.removed <==> v in s.validators && v !in t.validators
    ensures v in e.added <==> S.DepositedBy(stakeOps, v) > H.UnstakedBy(stakeOps, v) && v !in t.validators
  {
    hide S.Run, D.BookRun, S.DepositedBy, H.UnstakedBy, Total;
    H.StakeIsAccounted(stakeOps, v);
    DelegatedIsSum(delegateOps, v);
    assert v in e.removed <==> v in Elements(e.removed);
    assert v in e.added <==> v in Elements(e.added);
  }

  /** `v` has unstaked down to half of the minimum, `w` has just staked the minimum. */
  function HalfAndFull(v: ValidatorID, w: ValidatorID, tx: Bytes): seq<S.Op> {
    [S.DepositStake(v, 10_000, tx, 0), S.DepositStake(w, 10_000, tx, 0), S.RequestUnstake(v, 5_000, 0)]
  }

  lemma NoStakeYet(l: S.Ledger, v: ValidatorID)
    requires v !in l.stakes
    ensures S.StakeOrNew(l, v).active == 0
  {
  }

  lemma HalfAndFullStakes(v: ValidatorID, w: ValidatorID, tx: Bytes)
    requires v != w && |tx| == S.DIGEST_LENGTH
    ensures var stakes := S.Run(HalfAndFull(v, w, tx)).stakes;
            stakes.Keys == {v, w} && stakes[v].active == 5_000 && stakes[w].active == 10_000
  {
    hide S.Step, S.StakeOrNew;
    var first, second := S.DepositStake(v, 10_000, tx, 0), S.DepositStake(w, 10_000, tx, 0);
    var third := S.RequestUnstake(v, 5_000, 0);
    assert [] + [first] == [first] && [first] + [second] == [first, second];
    assert [first, second] + [third] == HalfAndFull(v, w, tx);
    S.RunOne([], first);
    S.RunOne([first], second);
    S.RunOne([first, second], third);
    NoStakeYet(S.EMPTY, v);
    S.DepositRaisesActive(S.EMPTY, v, 10_000, tx, 0);
    NoStakeYet(S.Run([first]), w);
    S.DepositRaisesActive(S.Run([first]), w, 10_000, tx, 0);
    S.UnstakeLowersActive(S.Run([first, second]), v, 5_000, 0);
  }

  /**
   * Every reconfiguration of the set `{v}` then empties it, although `w` meets the minimum: the event reports `w` as
   * added, and `v` as both added and removed.
   */
  lemma NewcomerIsReportedNotAdded(s: VSet, v: ValidatorID, w: ValidatorID, tx: Bytes, t: VSet, e: ChangeEvent)
    requires v != w && |tx| == S.DIGEST_LENGTH && s.validators.Keys == {v}
    requires ReconfiguredTo(s, S.Run(HalfAndFull(v, w, tx)).stakes, map[], t, e)
    ensures t.validators == map[] && v in e.removed && v in e.added && w in e.added
    ensures MeetsMinimum(S.Run(HalfAndFull(v, w, tx)).stakes, w)
  {
    HalfAndFullStakes(v, w, tx);
    hide S.Run;
    assert v in Elements(e.removed);
    assert v in Elements(e.added) && w in Elements(e.added);
  }

  /** Such a reconfiguration exists. */
  lemma NewcomerCase(s: VSet, v: ValidatorID, w: ValidatorID, tx: Bytes, now: nat)
    requires v != w && |tx| == S.DIGEST_LENGTH && s.validators.Keys == {v}
    ensures var e := ChangeEvent(s.cycle, [v, w], [v], 0, 0, now);
            ReconfiguredTo(s, S.Run(HalfAndFull(v, w, tx)).stakes, map[],
                           s.(validators := map[], totalStake := 0, history := s.history + [e]), e)
  {
    HalfAndFullStakes(v, w, tx);
    hide S.Run;
    var stakes := S.Run(HalfAndFull(v, w, tx)).stakes;
    assert Reconfigured(s.validators, stakes, map[]) == map[];
    assert StakeTable(map[]) == map[];
    assert Elements([v]) == {v} && Elements([v, w]) == {v, w};
  }

  lemma NobodyLeft(validators: map<ValidatorID, ValidatorInfo>)
    ensures Total(StakeTable(validators - validators.Keys)) == 0
  {
    assert StakeTable(validators - validators.Keys) == map[];
  }

  /** The members outside `todo` have their new stake, and `total` is the sum of those. */
  ghost predicate Restaking(members: map<ValidatorID, ValidatorInfo>, current: map<ValidatorID, ValidatorInfo>,
                            todo: set<ValidatorID>, total: nat, stakes: map<ValidatorID, S.Stake>,
                            infos: map<ValidatorID, D.Info>) {
    && todo <= current.Keys == members.Keys
    && total == Total(StakeTable(current - todo))
    && forall v :: v in current ==>
        current[v] == if v in todo then members[v] else Restaked(members[v], stakes, infos, v)
  }

  lemma RestakeOne(members: map<ValidatorID, ValidatorInfo>, current: map<ValidatorID, ValidatorInfo>,
                   todo: set<ValidatorID>, total: nat, stakes: map<ValidatorID, S.Stake>,
                   infos: map<ValidatorID, D.Info>, v: ValidatorID, stake: nat)
    requires Restaking(members, current, todo, total, stakes, infos) && v in todo
    requires stake == ActiveStake(stakes, v) + DelegatedStake(infos, v)
    ensures v in current
    ensures Restaking(members, current[v := WithStake(current[v], stake)], todo - {v}, total + stake, stakes, infos)
  {
    hide StakeTable, Total, Restaked;
    RestakedIs(members[v], stakes, infos, v);
    var next := current[v := Restaked(members[v], stakes, infos, v)];
    assert next - (todo - {v}) == (current - todo)[v := next[v]];
    SetMember(current - todo, v, next[v]);
  }

  lemma RestakedAll(members: map<ValidatorID, ValidatorInfo>, current: map<ValidatorID, ValidatorInfo>, total: nat,
                    stakes: map<ValidatorID, S.Stake>, infos: map<ValidatorID, D.Info>)
    requires Restaking(members, current, {}, total, stakes, infos)
    ensures current == AllRestaked(members, stakes, infos) && total == Total(StakeTable(current))
  {
    hide Restaked;
    DropNone(current);
  }

  lemma RestakedNone(members: map<ValidatorID, ValidatorInfo>, stakes: map<ValidatorID, S.Stake>,
                     infos: map<ValidatorID, D.Info>)
    ensures Restaking(members, members, members.Keys, 0, stakes, infos)
  {
    hide Restaked;
    NobodyLeft(members);
  }

  lemma RestakedIs(info: ValidatorInfo, stakes: map<ValidatorID, S.Stake>, infos: map<ValidatorID, D.Info>,
                   v: ValidatorID)
    ensures Restaked(info, stakes, infos, v) == info.(stake := ActiveStake(stakes, v) + DelegatedStake(infos, v))
  {
  }

  /** Dropping those below the minimum and restaking the rest is the reconfiguration. */
  lemma DropThenRestake(validators: map<ValidatorID, ValidatorInfo>, stakes: map<ValidatorID, S.Stake>,
                        infos: map<ValidatorID, D.Info>, removed: set<ValidatorID>)
    requires removed == set v | v in validators && !MeetsMinimum(stakes, v)
    ensures AllRestaked(validators - removed, stakes, infos) == Reconfigured(validators, stakes, infos)
    ensures removed == validators.Keys - Reconfigured(validators, stakes, infos).Keys
    ensures (validators - removed).Keys == Reconfigured(validators, stakes, infos).Keys
  {
  }

  lemma ReconfigurationKeepsCounters(validators: map<ValidatorID, ValidatorInfo>, stakes: map<ValidatorID, S.Stake>,
                                     infos: map<ValidatorID, D.Info>)
    requires CountersSound(validators)
    ensures CountersSound(Reconfigured(validators, stakes, infos))
  {
    hide MeetsMinimum;
  }

  // ---------- Quorums of listed validators ----------

  predicate ListHasQuorum(s: VSet, ids: seq<ValidatorID>) {
    HasQuorum(WeightOf(StakeTable(s.validators), ids), s.totalStake)
  }

  /** Two lists that each make a quorum share members holding more than a third, if no staker is listed twice. */
  lemma ListedQuorumsIntersect(s: VSet, a: seq<ValidatorID>, b: seq<ValidatorID>)
    requires Inv(s) && ListHasQuorum(s, a) && ListHasQuorum(s, b)
    requires DistinctStakers(StakeTable(s.validators), a) && DistinctStakers(StakeTable(s.validators), b)
    ensures 3 * StakeOf(StakeTable(s.validators), Elements(a) * Elements(b)) > s.totalStake
  {
    ListedWeight(StakeTable(s.validators), a);
    ListedWeight(StakeTable(s.validators), b);
    QuorumsIntersect(StakeTable(s.validators), s.totalStake, Elements(a), Elements(b));
  }

  /** Without repeated stakers a list never outweighs the whole set. */
  lemma ListedWeightBound(s: VSet, ids: seq<ValidatorID>)
    requires Inv(s) && DistinctStakers(StakeTable(s.validators), ids)
    ensures WeightOf(StakeTable(s.validators), ids) <= s.totalStake
  {
    ListedWeight(StakeTable(s.validators), ids);
    StakeGrows(StakeTable(s.validators), Elements(ids), Elements(ids));
  }

  // ---------- The mutable set ----------

  class ValidatorSet {
    var validators: map<ValidatorID, ValidatorInfo>
    var totalStake: nat
    var currentCycle: nat
    var changeHistory: seq<ChangeEvent>
    var minStake: nat

    function State(): VSet
      reads this
    {
      VSet(validators, totalStake, currentCycle, changeHistory, minStake)
    }

    ghost predicate Valid()
      reads this
    {
      Inv(State())
    }

    constructor (minStake: nat)
      ensures Valid() && State() == VSet(map[], 0, 0, [], minStake)
    {
      validators, totalStake, currentCycle, changeHistory := map[], 0, 0, [];
      this.minStake := minStake;
      new;
      assert StakeTable(map[]) == map[];
    }

    /** `wellFormed` is the verdict of the metadata's own validation. */
    method AddValidator(v: ValidatorID, stake: nat, wellFormed: bool) returns (r: Result<(), Error>)
      requires Valid()
      modifies this`validators, this`totalStake
      ensures Valid()
      ensures r == if !wellFormed then Err(InvalidMetadata)
                   else if v in old(validators) then Err(AlreadyMember) else Ok(())
      ensures r.Err? ==> State() == old(State())
      ensures r.Ok? ==> State() == old(State()).(validators := old(validators)[v := ValidatorInfo(stake, true, 0, 0)],
                                                 totalStake := old(totalStake) + stake)
    {
      if !wellFormed { return Err(InvalidMetadata); }
      if v in validators { return Err(AlreadyMember); }
      SetMember(validators, v, ValidatorInfo(stake, true, 0, 0));
      validators := validators[v := ValidatorInfo(stake, true, 0, 0)];
      totalStake := totalStake + stake;
      r := Ok(());
    }

    method RemoveValidator(v: ValidatorID) returns (r: Result<(), Error>)
      requires Valid()
      modifies this`validators, this`totalStake
      ensures Valid()
      ensures r == if v in old(validators) then Ok(()) else Err(NotMember)
      ensures r.Err? ==> State() == old(State())
      ensures r.Ok? ==> State() == old(State()).(validators := old(validators) - {v}, totalStake := totalStake) &&
                        totalStake + old(validators)[v].stake == old(totalStake)
    {
      if v !in validators { return Err(NotMember); }
      DropMember(validators, v);
      totalStake := totalStake - validators[v].stake;
      validators := validators - {v};
      r := Ok(());
    }

    method Clear()
      modifies this`validators, this`totalStake
      ensures Valid() && State() == old(State()).(validators := map[], totalStake := 0)
    {
      validators, totalStake := map[], 0;
      assert StakeTable(map[]) == map[];
    }

    /** One more snapshot for a member; an unknown validator is ignored. */
    method RecordParticipation(v: ValidatorID, participated: bool)
      requires Valid()
      modifies this`validators
      ensures Valid() && validators.Keys == old(validators).Keys && totalStake == old(totalStake)
      ensures forall w :: w in validators && w != v ==> validators[w] == old(validators)[w]
      ensures v in validators ==>
                validators[v] == old(validators)[v].(
                  snapshots := old(validators)[v].snapshots + 1,
                  participated := old(validators)[v].participated + if participated then 1 else 0)
    {
      if v in validators {
        var info := validators[v];
        info := info.(snapshots := info.snapshots + 1);
        if participated { info := info.(participated := info.participated + 1); }
        validators := validators[v := info];
        assert StakeTable(validators) == StakeTable(old(validators));
      }
    }

    method AdvanceCycle() returns (cycle: nat)
      requires Valid()
      modifies this`validators, this`currentCycle
      ensures Valid() && cycle == old(currentCycle) + 1
      ensures State() == old(State()).(cycle := cycle, validators := map v | v in old(validators) ::
                           old(validators)[v].(participated := 0, snapshots := 0))
    {
      currentCycle := currentCycle + 1;
      cycle := currentCycle;
      var todo := validators.Keys;
      while todo != {}
        invariant todo <= validators.Keys == old(validators).Keys && currentCycle == cycle
        invariant forall v :: v in validators ==>
                    validators[v] == if v in todo then old(validators)[v]
                                     else old(validators)[v].(participated := 0, snapshots := 0)
      {
        var v :| v in todo;
        todo := todo - {v};
        validators := validators[v := validators[v].(participated := 0, snapshots := 0)];
      }
      assert StakeTable(validators) == StakeTable(old(validators));
    }

    /** The summed stake of the listed members; a validator listed twice counts twice. */
    function CalculateStakeWeight(ids: seq<ValidatorID>): nat
      reads this
    {
      WeightOf(StakeTable(validators), ids)
    }

    /** Collect the members below the minimum stake, in an arbitrary order, then remove them. */
    method DropBelowMinimum(staking: Staking.StakingManager) returns (removed: seq<ValidatorID>)
      modifies this`validators
      ensures NoDup(removed)
      ensures Elements(removed) == set v | v in old(validators) && !MeetsMinimum(staking.stakes, v)
      ensures validators == old(validators) - Elements(removed)
    {
      ghost var members, stakes := validators, staking.stakes;
      removed := [];
      var todo := validators.Keys;
      while todo != {}
        invariant todo <= members.Keys && validators == members && NoDup(removed)
        invariant forall v :: v in removed <==> v in members && v !in todo && !MeetsMinimum(stakes, v)
      {
        var v :| v in todo;
        todo := todo - {v};
        if !staking.MeetsMinimumStake(v) { removed := removed + [v]; }
      }
      DropNone(members);
      NoElements(removed[..0]);
      var i := 0;
      while i < |removed|
        invariant i <= |removed|
        invariant validators == members - Elements(removed[..i])
      {
        TakeOneMore(removed, i);
        ElementsAppend(removed[..i], removed[i]);
        DropOneMore(members, Elements(removed[..i]), removed[i]);
        validators := validators - {removed[i]};
        i := i + 1;
      }
      TakeAll(removed);
    }

    /** The staked validators that are not members; they are reported, and nothing is inserted for them. */
    method ReportAdded(staked: seq<ValidatorID>) returns (added: seq<ValidatorID>)
      requires NoDup(staked)
      ensures NoDup(added) && Elements(added) == Elements(staked) - validators.Keys
    {
      added := [];
      var i := 0;
      while i < |staked|
        invariant i <= |staked| && NoDup(added)
        invariant forall v :: v in added <==> v in staked[..i] && v !in validators
      {
        TakeOneMore(staked, i);
        if staked[i] !in validators { added := added + [staked[i]]; }
        i := i + 1;
      }
      TakeAll(staked);
    }

    static method StakeWithDelegations(staking: Staking.StakingManager, delegation: Delegations.DelegationManager,
                                       v: ValidatorID) returns (stake: nat)
      ensures stake == ActiveStake(staking.stakes, v) + DelegatedStake(delegation.validatorDelegations, v)
    {
      stake := staking.GetActiveStake(v) + delegation.GetValidatorDelegatedStake(v);
    }

    /** Every remaining member gets its own plus its delegated stake; the sum is returned. */
    method Restake(staking: Staking.StakingManager, delegation: Delegations.DelegationManager) returns (total: nat)
      modifies this`validators
      ensures validators == AllRestaked(old(validators), staking.stakes, delegation.validatorDelegations)
      ensures total == Total(StakeTable(validators))
    {
      ghost var members, stakes, infos := validators, staking.stakes, delegation.validatorDelegations;
      hide StakeTable, Total, Restaked, Restaking, AllRestaked, ActiveStake, DelegatedStake, WithStake;
      total := 0;
      var todo := validators.Keys;
      RestakedNone(members, stakes, infos);
      while todo != {}
        invariant Restaking(members, validators, todo, total, stakes, infos)
      {
        var v :| v in todo;
        var newStake := StakeWithDelegations(staking, delegation, v);
        RestakeOne(members, validators, todo, total, stakes, infos, v, newStake);
        todo := todo - {v};
        validators := validators[v := WithStake(validators[v], newStake)];
        total := total + newStake;
      }
      RestakedAll(members, validators, total, stakes, infos);
    }

    method ReconfigureAtCycleEnd(staking: Staking.StakingManager, delegation: Delegations.DelegationManager, now: nat)
      returns (r: Result<ChangeEvent, Error>)
      requires Valid()
      modifies this`validators, this`totalStake, this`changeHistory
      ensures Valid()
      ensures r.Err? <==> Staked(staking.stakes) == {}
      ensures r.Err? ==> r.error == NothingStaked && State() == old(State())
      ensures r.Ok? ==> ReconfiguredTo(old(State()), staking.stakes, delegation.validatorDelegations, State(), r.value)
      ensures r.Ok? ==> r.value.timestamp == now
    {
      hide Reconfigured, AllRestaked, Total, StakeTable, MeetsMinimum, Restaked, CountersSound;
      ghost var s := State();
      var staked := staking.GetStakedValidators();
      assert Elements(staked) == Staked(staking.stakes);
      if staked == [] {
        assert Elements(staked) == {};
        return Err(NothingStaked);
      }
      assert staked[0] in Elements(staked);
      var removed := DropBelowMinimum(staking);
      var added := ReportAdded(staked);
      var total := Restake(staking, delegation);
      DropThenRestake(s.validators, staking.stakes, delegation.validatorDelegations, Elements(removed));
      ReconfigurationKeepsCounters(s.validators, staking.stakes, delegation.validatorDelegations);
      totalStake := total;
      var event := ChangeEvent(currentCycle, added, removed, |validators|, total, now);
      changeHistory := changeHistory + [event];
      r := Ok(event);
    }
  }
}
