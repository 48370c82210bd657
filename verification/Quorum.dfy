/** Stake-weighted quorums: what a strict two-thirds majority guarantees, and what duplicates do to it. */
module Quorum {
  import opened Collections
  import opened ByteStrings

  type ValidatorID = Bytes

  /** More than two thirds of the total. */
  predicate HasQuorum(weight: nat, total: nat) {
    weight * 3 > total * 2
  }

  // ---------- Stake held by a set of validators ----------

  ghost function Shares(table: map<ValidatorID, nat>, who: set<ValidatorID>): map<ValidatorID, nat> {
    map v | v in table :: if v in who then table[v] else 0
  }

  ghost function StakeOf(table: map<ValidatorID, nat>, who: set<ValidatorID>): nat {
    Total(Shares(table, who))
  }

  /** Inclusion and exclusion. */
  lemma StakeOverlap(table: map<ValidatorID, nat>, a: set<ValidatorID>, b: set<ValidatorID>)
    ensures StakeOf(table, a) + StakeOf(table, b) == StakeOf(table, a + b) + StakeOf(table, a * b)
  {
    var both := map v | v in table :: Shares(table, a)[v] + Shares(table, b)[v];
    TotalPlus(both, Shares(table, a), Shares(table, b));
    TotalPlus(both, Shares(table, a + b), Shares(table, a * b));
  }

  lemma StakeGrows(table: map<ValidatorID, nat>, a: set<ValidatorID>, b: set<ValidatorID>)
    requires forall v :: v in a && v in table ==> v in b
    ensures StakeOf(table, a) <= StakeOf(table, b) <= Total(table)
  {
    TotalPointwise(Shares(table, a), Shares(table, b));
    TotalPointwise(Shares(table, b), table);
  }

  lemma StakeAdd(table: map<ValidatorID, nat>, a: set<ValidatorID>, v: ValidatorID)
    requires v !in a
    ensures StakeOf(table, a + {v}) == StakeOf(table, a) + if v in table then table[v] else 0
  {
    if v in table {
      TotalUpdate(Shares(table, a), v, table[v]);
      assert Shares(table, a)[v := table[v]] == Shares(table, a + {v});
    } else {
      assert Shares(table, a) == Shares(table, a + {v});
    }
  }

  // ---------- Quorum intersection and agreement ----------

  /** Any two quorums share more than a third of the stake. */
  lemma {:induction false} QuorumsIntersect(table: map<ValidatorID, nat>, total: nat, a: set<ValidatorID>,
                                            b: set<ValidatorID>)
    requires Total(table) <= total
    requires HasQuorum(StakeOf(table, a), total) && HasQuorum(StakeOf(table, b), total)
    ensures 3 * StakeOf(table, a * b) > total
  {
    StakeOverlap(table, a, b);
    StakeGrows(table, a + b, a + b);
  }

  /** `max_malicious_stake`, `min_honest_stake` and the tolerance verdict. */
  function MaxMaliciousStake(total: nat): nat { total / 3 }

  function MinHonestStake(total: nat): nat { total * 2 / 3 + 1 }

  predicate IsTolerant(active: nat, total: nat) { active >= MinHonestStake(total) }

  /** Two quorums always share an honest validator when the Byzantine stake is within the tolerated third. */
  lemma {:induction false} QuorumsShareHonest(table: map<ValidatorID, nat>, total: nat, a: set<ValidatorID>,
                                              b: set<ValidatorID>, byzantine: set<ValidatorID>) returns (v: ValidatorID)
    requires Total(table) <= total
    requires HasQuorum(StakeOf(table, a), total) && HasQuorum(StakeOf(table, b), total)
    requires StakeOf(table, byzantine) <= MaxMaliciousStake(total)
    ensures v in a && v in b && v in table && v !in byzantine
  {
    QuorumsIntersect(table, total, a, b);
    if forall v :: v in a * b && v in table ==> v in byzantine {
      StakeGrows(table, a * b, byzantine);
      assert false;
    }
    v :| v in a * b && v in table && v !in byzantine;
  }

  /** The liveness check and the tolerance check are the same test. */
  lemma ToleranceIsQuorum(active: nat, total: nat)
    ensures IsTolerant(active, total) <==> HasQuorum(active, total)
  {
  }

  /** The rest of the stake still makes a quorum after `offline` of it drops out. */
  predicate Survives(offline: nat, total: nat) {
    offline <= total && HasQuorum(total - offline, total)
  }

  /** Losing any stake up to the reported maximum is survivable exactly when the total is not a multiple of three. */
  lemma MaxMaliciousIsTight(total: nat)
    ensures (forall offline: nat :: offline <= MaxMaliciousStake(total) ==> Survives(offline, total)) <==>
        total % 3 != 0
  {
    if total % 3 == 0 {
      assert !Survives(MaxMaliciousStake(total), total);
    }
  }

  // ---------- Weights computed from a list of signers ----------

  /** Unknown validators are skipped; a repeated one is counted each time. */
  function WeightOf(table: map<ValidatorID, nat>, ids: seq<ValidatorID>): nat {
    if ids == [] then 0
    else (if ids[0] in table then table[ids[0]] else 0) + WeightOf(table, ids[1..])
  }

  /** Nobody with stake is listed twice. */
  ghost predicate DistinctStakers(table: map<ValidatorID, nat>, ids: seq<ValidatorID>) {
    forall i, j :: 0 <= i < j < |ids| && ids[i] in table && table[ids[i]] > 0 ==> ids[i] != ids[j]
  }

  /** The listed weight is the stake of the listed set exactly when no staker is listed twice. */
  lemma {:induction false} ListedWeight(table: map<ValidatorID, nat>, ids: seq<ValidatorID>)
    ensures WeightOf(table, ids) >= StakeOf(table, Elements(ids))
    ensures WeightOf(table, ids) == StakeOf(table, Elements(ids)) <==> DistinctStakers(table, ids)
  {
    if ids == [] {
      NoStake(table, Elements(ids));
    } else {
      var v, rest := ids[0], ids[1..];
      ListedWeight(table, rest);
      assert Elements(ids) == Elements(rest) + {v};
      assert DistinctStakers(table, ids) <==>
             DistinctStakers(table, rest) && (v in table && table[v] > 0 ==> v !in rest) by {
        if DistinctStakers(table, rest) && (v in table && table[v] > 0 ==> v !in rest) {
          forall i, j | 0 <= i < j < |ids| && ids[i] in table && table[ids[i]] > 0 ensures ids[i] != ids[j] {
            assert ids[j] == rest[j - 1];
            if i > 0 { assert ids[i] == rest[i - 1]; }
          }
        }
        if DistinctStakers(table, ids) {
          forall i, j | 0 <= i < j < |rest| && rest[i] in table && table[rest[i]] > 0 ensures rest[i] != rest[j] {
            assert rest[i] == ids[i + 1] && rest[j] == ids[j + 1];
          }
        }
      }
      if v in rest {
        assert Elements(ids) == Elements(rest);
      } else {
        StakeAdd(table, Elements(rest), v);
      }
    }
  }

  /** With the whole stake at most a third of the word size and no staker repeated, both quorum products fit a word. */
  lemma QuorumFitsInU64(table: map<ValidatorID, nat>, ids: seq<ValidatorID>)
    requires Total(table) <= U64_MAX / 3 && DistinctStakers(table, ids)
    ensures WeightOf(table, ids) * 3 <= U64_MAX && Total(table) * 2 <= U64_MAX
  {
    ListedWeight(table, ids);
    StakeGrows(table, Elements(ids), Elements(ids));
  }

  lemma {:induction false} EveryoneListed(who: set<ValidatorID>) returns (ids: seq<ValidatorID>)
    ensures NoDup(ids) && Elements(ids) == who
  {
    ids := [];
    if who != {} {
      var v :| v in who;
      var rest := EveryoneListed(who - {v});
      ElementsAppend(rest, v);
      assert v !in Elements(rest);
      ids := rest + [v];
    }
  }

  /** Every list without a repeated staker fits the word exactly when the whole stake does. */
  lemma QuorumFitsExactly(table: map<ValidatorID, nat>)
    ensures (forall ids :: DistinctStakers(table, ids) ==> WeightOf(table, ids) * 3 <= U64_MAX) <==>
            Total(table) * 3 <= U64_MAX
  {
    hide WeightOf, Total, DistinctStakers;
    if Total(table) * 3 <= U64_MAX {
      forall ids | DistinctStakers(table, ids) ensures WeightOf(table, ids) * 3 <= U64_MAX {
        ListedWeight(table, ids);
        StakeGrows(table, Elements(ids), Elements(ids));
      }
    }
    var everyone := EveryoneListed(table.Keys);
    NoDupIsDistinct(table, everyone);
    ListedWeight(table, everyone);
    assert Shares(table, table.Keys) == table;
  }

  lemma NoDupIsDistinct(table: map<ValidatorID, nat>, ids: seq<ValidatorID>)
    requires NoDup(ids)
    ensures DistinctStakers(table, ids)
  {
  }

  /** A repeated staker can push the product out of the word although the whole stake is within the bound. */
  lemma RepeatedStakerOverflows(v: ValidatorID)
    ensures var table := map[v := U64_MAX / 3];
            Total(table) <= U64_MAX / 3 && WeightOf(table, [v, v]) * 3 > U64_MAX
  {
    var table := map[v := U64_MAX / 3];
    TotalRemove(table, v);
    assert table - {v} == map[];
    assert [v, v][1..] == [v] && [v][1..] == [];
  }

  lemma NoStake(table: map<ValidatorID, nat>, none: set<ValidatorID>)
    requires none == {}
    ensures StakeOf(table, none) == 0
  {
    AllZero(Shares(table, none));
  }

  lemma {:induction false} AllZero(m: map<ValidatorID, nat>)
    requires forall v :: v in m ==> m[v] == 0
    ensures Total(m) == 0
    decreases |m|
  {
    if m != map[] {
      var v :| v in m;
      TotalRemove(m, v);
      AllZero(m - {v});
    }
  }
}
