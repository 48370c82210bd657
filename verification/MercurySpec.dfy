/** Mercury's finality as a value: snapshots waiting for signatures and snapshots finalized. */
module MercurySpec {
  import opened Wrappers
  import opened Collections
  import opened Quorum
  import opened AppendOnlyChain

  datatype Snapshot = Snapshot(
    sequence: nat,
    timestamp: nat,
    previousDigest: Digest,
    stateRoot: Digest,
    transactions: seq<Digest>,
    cycle: nat,
    signers: seq<ValidatorID>,
    stakeWeight: nat,
    digest: Digest)

  datatype State = State(current: nat, pending: map<nat, Snapshot>, finalized: map<nat, Snapshot>)

  const EMPTY := State(0, map[], map[])

  /** What one snapshot is built from once the ordered transactions have been executed. */
  datatype Content = Content(
    transactions: seq<Digest>, stateRoot: Digest, timestamp: nat, cycle: nat, digest: Digest)

  datatype Op =
      /** `stakes` and `total` are the validator set at that moment; `executed`: execution and signing succeeded. */
    | Create(content: Content, executed: bool, me: Option<ValidatorID>, stakes: map<ValidatorID, nat>, total: nat)
    | AddSignature(sequence: nat, validator: ValidatorID, stakes: map<ValidatorID, nat>, total: nat)

  function PreviousDigest(s: State): Digest {
    if s.current + 1 == 1 then ZeroDigest()
    else if s.current in s.finalized then s.finalized[s.current].digest
    else ZeroDigest()
  }

  function NewSnapshot(s: State, op: Op): Snapshot
    requires op.Create?
  {
    var c := op.content;
    var signers := match op.me case Some(v) => [v] case None => [];
    var weight := match op.me case Some(v) => if v in op.stakes then op.stakes[v] else 0 case None => 0;
    Snapshot(s.current + 1, c.timestamp, PreviousDigest(s), c.stateRoot, c.transactions, c.cycle, signers, weight,
        c.digest)
  }

  function Finalized(s: State, snapshot: Snapshot): State {
    State(snapshot.sequence, s.pending, s.finalized[snapshot.sequence := snapshot])
  }

  function Created(s: State, op: Op): State
    requires op.Create?
  {
    var snapshot := NewSnapshot(s, op);
    if HasQuorum(snapshot.stakeWeight, op.total) then Finalized(s, snapshot)
    else s.(pending := s.pending[snapshot.sequence := snapshot])
  }

  /** The signature list is extended without looking for repeats, and its weight is recomputed. */
  function Signed(snapshot: Snapshot, op: Op): Snapshot
    requires op.AddSignature?
  {
    var signers := snapshot.signers + [op.validator];
    snapshot.(signers := signers, stakeWeight := WeightOf(op.stakes, signers))
  }

  predicate Creates(op: Op)
    requires op.Create?
  {
    op.content.transactions != [] && op.executed
  }

  predicate Accepts(s: State, op: Op)
    requires op.AddSignature?
  {
    op.sequence !in s.finalized && op.sequence in s.pending && op.validator in op.stakes
  }

  function Step(s: State, op: Op): State {
    match op
    case Create(_, _, _, _, _) => if Creates(op) then Created(s, op) else s
    case AddSignature(sequence, _, _, total) =>
      if !Accepts(s, op) then s
      else
        var snapshot := Signed(s.pending[sequence], op);
        if HasQuorum(snapshot.stakeWeight, total)
        then Finalized(s, snapshot).(pending := s.pending - {sequence})
        else s.(pending := s.pending[sequence := snapshot])
  }

  function Run(ops: seq<Op>): State {
    if ops == [] then EMPTY else Step(Run(ops[..|ops| - 1]), ops[|ops| - 1])
  }

  // ---------- What every reachable state satisfies ----------

  /** Exactly the sequences from one to the current one are finalized. */
  ghost predicate NoGaps(s: State) {
    forall k :: k in s.finalized <==> 1 <= k <= s.current
  }

  /** The digest finalized at `k`; zero where nothing is, in particular before the first. */
  function DigestAt(s: State, k: int): Digest {
    if k in s.finalized then s.finalized[k].digest else ZeroDigest()
  }

  /** A snapshot stored under `k` has that sequence and names the finalized snapshot before it. */
  ghost predicate Fits(s: State, k: nat, snapshot: Snapshot) {
    1 <= k <= s.current + 1 && snapshot.sequence == k && snapshot.previousDigest == DigestAt(s, k - 1)
  }

  ghost predicate AllFit(s: State, snapshots: map<nat, Snapshot>) {
    forall k {:trigger Fits(s, k, snapshots[k])} :: k in snapshots ==> Fits(s, k, snapshots[k])
  }

  ghost predicate Inv(s: State) {
    NoGaps(s) && AllFit(s, s.finalized) && AllFit(s, s.pending)
  }

  /** Finalizing the next sequence leaves every other snapshot in its place. */
  lemma FinalizeKeepsFit(s: State, snapshot: Snapshot, k: nat, other: Snapshot)
    requires NoGaps(s) && snapshot.sequence == s.current + 1 && Fits(s, k, other)
    ensures Fits(Finalized(s, snapshot), k, other)
  {
  }

  lemma FinalizeKeepsInv(s: State, snapshot: Snapshot)
    requires Inv(s) && snapshot.sequence == s.current + 1 && Fits(s, snapshot.sequence, snapshot)
    ensures Inv(Finalized(s, snapshot))
  {
    hide Fits;
    var t := Finalized(s, snapshot);
    forall k | k in t.finalized ensures Fits(t, k, t.finalized[k]) {
      FinalizeKeepsFit(s, snapshot, k, t.finalized[k]);
    }
    forall k | k in t.pending ensures Fits(t, k, t.pending[k]) {
      FinalizeKeepsFit(s, snapshot, k, t.pending[k]);
    }
  }

  lemma DigestAtPending(s: State, pending: map<nat, Snapshot>, k: int)
    ensures DigestAt(s.(pending := pending), k) == DigestAt(s, k)
  {
  }

  lemma PendingKeepsInv(s: State, pending: map<nat, Snapshot>)
    requires Inv(s) && AllFit(s, pending)
    ensures Inv(s.(pending := pending))
  {
    hide DigestAt;
    var t := s.(pending := pending);
    forall k ensures DigestAt(t, k) == DigestAt(s, k) { DigestAtPending(s, pending, k); }
    forall k | k in t.finalized ensures Fits(t, k, t.finalized[k]) { assert Fits(s, k, s.finalized[k]); }
    forall k | k in t.pending ensures Fits(t, k, t.pending[k]) { assert Fits(s, k, pending[k]); }
  }

  lemma NextFits(s: State, op: Op)
    requires Inv(s) && op.Create?
    ensures Fits(s, s.current + 1, NewSnapshot(s, op))
  {
  }

  /** Only the next sequence can still be waiting once signing is allowed. */
  lemma WaitingIsNext(s: State, op: Op)
    requires Inv(s) && op.AddSignature? && Accepts(s, op)
    ensures op.sequence == s.current + 1 && Fits(s, op.sequence, Signed(s.pending[op.sequence], op))
  {
    hide DigestAt;
    assert Fits(s, op.sequence, s.pending[op.sequence]);
  }

  lemma StepKeepsInv(s: State, op: Op)
    requires Inv(s)
    ensures Inv(Step(s, op))
  {
    hide Inv, Fits, NewSnapshot, Signed;
    FitsAll(s);
    if op.Create? && Creates(op) {
      var snapshot := NewSnapshot(s, op);
      NextFits(s, op);
      FinalizeKeepsInv(s, snapshot);
      PendingKeepsInv(s, s.pending[s.current + 1 := snapshot]);
      SequenceOf(s, s.current + 1, snapshot);
    }
    if op.AddSignature? && Accepts(s, op) {
      var snapshot := Signed(s.pending[op.sequence], op);
      WaitingIsNext(s, op);
      SequenceOf(s, op.sequence, snapshot);
      FinalizeKeepsInv(s, snapshot);
      PendingKeepsInv(s, s.pending[op.sequence := snapshot]);
      FinalizeThenDrop(s, snapshot);
    }
  }

  lemma FitsAll(s: State)
    requires Inv(s)
    ensures AllFit(s, s.finalized) && AllFit(s, s.pending)
  {
  }

  lemma SequenceOf(s: State, k: nat, snapshot: Snapshot)
    requires Fits(s, k, snapshot)
    ensures snapshot.sequence == k
  {
  }

  lemma FinalizeThenDrop(s: State, snapshot: Snapshot)
    requires Inv(Finalized(s, snapshot))
    ensures Inv(Finalized(s, snapshot).(pending := s.pending - {snapshot.sequence}))
  {
    PendingKeepsInv(Finalized(s, snapshot), s.pending - {snapshot.sequence});
  }

  lemma {:induction false} RunKeepsInv(ops: seq<Op>)
    ensures Inv(Run(ops))
  {
    if ops != [] {
      RunKeepsInv(ops[..|ops| - 1]);
      StepKeepsInv(Run(ops[..|ops| - 1]), ops[|ops| - 1]);
    }
  }

  /** A finalized snapshot is never replaced or dropped. */
  lemma StepKeepsFinalized(s: State, op: Op, k: nat)
    requires Inv(s) && k in s.finalized
    ensures k in Step(s, op).finalized && Step(s, op).finalized[k] == s.finalized[k]
  {
    hide Step, Inv;
    StepExtends(s, op);
  }

  /** One step finalizes at most the next snapshot and touches no earlier one. */
  lemma StepExtends(s: State, op: Op)
    requires Inv(s)
    ensures var t := Step(s, op);
            || (t.current == s.current && t.finalized == s.finalized)
            || (t.current == s.current + 1 && t.current in t.finalized && t.current !in s.finalized &&
                t.finalized == s.finalized[t.current := t.finalized[t.current]])
  {
    hide Fits, AllFit;
    if op.AddSignature? && Accepts(s, op) {
      WaitingIsNext(s, op);
      SequenceOf(s, op.sequence, Signed(s.pending[op.sequence], op));
    }
  }

  lemma {:induction false} FinalityIsForever(ops: seq<Op>, more: seq<Op>, k: nat)
    requires k in Run(ops).finalized
    ensures k in Run(ops + more).finalized && Run(ops + more).finalized[k] == Run(ops).finalized[k]
    decreases |more|
  {
    hide Step, Inv;
    if more == [] {
      assert ops + more == ops;
    } else {
      var init := more[..|more| - 1];
      FinalityIsForever(ops, init, k);
      RunKeepsInv(ops + init);
      assert (ops + more)[..|ops + more| - 1] == ops + init;
      StepKeepsFinalized(Run(ops + init), more[|more| - 1], k);
    }
  }

  /** The zero digest stands in for a predecessor only in the very first snapshot. */
  lemma {:induction false} FallbackNeverTaken(ops: seq<Op>)
    ensures var s := Run(ops);
            && (s.current > 0 ==> s.current in s.finalized && PreviousDigest(s) == s.finalized[s.current].digest)
            && (s.current == 0 ==> PreviousDigest(s) == ZeroDigest())
  {
    RunKeepsInv(ops);
  }

  // ---------- Mercury implements the append-only chain ----------

  ghost function Chain(s: State): (chain: seq<Link>)
    requires NoGaps(s)
    ensures |chain| == s.current
  {
    seq(s.current, i requires 0 <= i < s.current => Link(s.finalized[i + 1].digest, s.finalized[i + 1].previousDigest))
  }

  lemma LastNamesTip(t: State)
    requires Inv(t) && t.current > 0
    ensures t.current in t.finalized && t.finalized[t.current].previousDigest == DigestAt(t, t.current - 1)
  {
    hide DigestAt;
    assert Fits(t, t.current, t.finalized[t.current]);
  }

  lemma StepRefinesChain(s: State, op: Op)
    requires Inv(s)
    ensures Inv(Step(s, op)) && ChainStep(Chain(s), Chain(Step(s, op)))
  {
    hide Step, Fits, AllFit;
    StepKeepsInv(s, op);
    StepExtends(s, op);
    var t := Step(s, op);
    forall i | 0 <= i < s.current ensures Chain(t)[i] == Chain(s)[i] { StepKeepsFinalized(s, op, i + 1); }
    assert Chain(t)[..s.current] == Chain(s);
    if t.current == s.current + 1 {
      LastNamesTip(t);
      assert s.current > 0 ==> t.finalized[s.current] == s.finalized[s.current];
    }
  }

  /** In every reachable state the finalized snapshots form one linked chain. */
  lemma {:induction false} ChainIsLinked(ops: seq<Op>)
    ensures Inv(Run(ops)) && Linked(Chain(Run(ops)))
  {
    RunKeepsInv(ops);
    if ops != [] {
      ChainIsLinked(ops[..|ops| - 1]);
      StepRefinesChain(Run(ops[..|ops| - 1]), ops[|ops| - 1]);
      StepKeepsLinked(Chain(Run(ops[..|ops| - 1])), Chain(Run(ops)));
    }
  }

  // ---------- When a recorded weight is honest ----------

  /** A signed snapshot's weight is its signers' stake exactly when no staker signed twice. */
  lemma SignedWeight(snapshot: Snapshot, op: Op)
    requires op.AddSignature?
    ensures var signed := Signed(snapshot, op);
            signed.stakeWeight == StakeOf(op.stakes, Elements(signed.signers)) <==>
            DistinctStakers(op.stakes, signed.signers)
  {
    ListedWeight(op.stakes, Signed(snapshot, op).signers);
  }

  /** A validator with less than half of the stake finalizes alone by signing twice. */
  lemma DoubleSignerFinalizesAlone(c: Content, v: ValidatorID)
    requires c.transactions != []
    ensures var s := Run([Create(c, true, Some(v), map[v := 40], 100), AddSignature(1, v, map[v := 40], 100)]);
            s.current == 1 && 1 in s.finalized && s.finalized[1].signers == [v, v]
  {
    var create, sign := Create(c, true, Some(v), map[v := 40], 100), AddSignature(1, v, map[v := 40], 100);
    assert [create, sign][..1] == [create] && [create][..0] == [];
    var waiting := NewSnapshot(EMPTY, create);
    assert Run([create]) == EMPTY.(pending := map[1 := waiting]);
    assert [v, v][1..] == [v] && [v][1..] == [];
    assert WeightOf(map[v := 40], [v]) == 40;
    assert WeightOf(map[v := 40], [v, v]) == 80;
  }

  // ---------- Where a snapshot comes from ----------

  /** Creation `c` opened sequence `k`, and `snapshot` has everything the creation brought. */
  ghost predicate OpenedBy(ops: seq<Op>, c: nat, k: nat, snapshot: Snapshot) {
    && c < |ops| && ops[c].Create? && ops[c].content.transactions != [] && ops[c].executed
    && k == Run(ops[..c]).current + 1 && snapshot.sequence == k
    && snapshot.timestamp == ops[c].content.timestamp && snapshot.stateRoot == ops[c].content.stateRoot
    && snapshot.transactions == ops[c].content.transactions && snapshot.cycle == ops[c].content.cycle
    && snapshot.digest == ops[c].content.digest
  }

  /** The creator, if it is a validator, then every known validator whose signature for `k` arrived after `c`. */
  ghost function SignersSince(ops: seq<Op>, c: nat, k: nat): seq<ValidatorID>
    requires c < |ops| && ops[c].Create?
  {
    var n := |ops| - 1;
    if n == c then (match ops[c].me case Some(v) => [v] case None => [])
    else
      SignersSince(ops[..n], c, k) +
      if ops[n].AddSignature? && ops[n].sequence == k && ops[n].validator in ops[n].stakes
      then [ops[n].validator] else []
  }

  ghost predicate SameContent(a: Snapshot, b: Snapshot) {
    a.(signers := b.signers, stakeWeight := b.stakeWeight) == b
  }

  lemma OpenedEarlier(ops: seq<Op>, c: nat, k: nat, earlier: Snapshot, later: Snapshot)
    requires ops != [] && OpenedBy(ops[..|ops| - 1], c, k, earlier) && SameContent(earlier, later)
    ensures OpenedBy(ops, c, k, later)
  {
    assert ops[..|ops| - 1][..c] == ops[..c];
  }

  /** A snapshot that keeps waiting changes by the arriving signature alone. */
  lemma StepKeepsWaiting(s: State, op: Op, k: nat)
    requires Inv(s) && k in Step(s, op).pending && k !in Step(s, op).finalized
    requires op.Create? ==> op.content.transactions == [] || !op.executed
    ensures k in s.pending && k !in s.finalized && SameContent(s.pending[k], Step(s, op).pending[k])
    ensures Step(s, op).pending[k].signers == s.pending[k].signers +
            if op.AddSignature? && op.sequence == k && op.validator in op.stakes then [op.validator] else []
  {
    hide Fits, AllFit, NoGaps;
  }

  /** A creation fills the next sequence with everything it brings. */
  lemma StepOpens(s: State, op: Op)
    requires Inv(s) && op.Create? && op.content.transactions != [] && op.executed
    ensures var t, k := Step(s, op), s.current + 1;
            && k !in s.finalized && (k in t.finalized || k in t.pending)
            && var made := if k in t.finalized then t.finalized[k] else t.pending[k];
            && made.sequence == k && made.timestamp == op.content.timestamp && made.stateRoot == op.content.stateRoot
            && made.transactions == op.content.transactions && made.cycle == op.content.cycle
            && made.digest == op.content.digest
            && made.signers == (match op.me case Some(v) => [v] case None => [])
  {
    hide Fits, AllFit;
  }

  /** After a creation only the sequence it filled can still wait. */
  lemma CreationWaits(s: State, op: Op, k: nat)
    requires Inv(s) && op.Create? && k in Step(s, op).pending && k !in Step(s, op).finalized
    ensures k == s.current + 1
  {
    hide DigestAt;
    if k in s.pending { assert Fits(s, k, s.pending[k]); }
  }

  /** A newly final snapshot was opened by this very creation, or was waiting for this very signature. */
  lemma StepFinalizes(s: State, op: Op, k: nat)
    requires Inv(s) && k in Step(s, op).finalized && k !in s.finalized
    ensures k == s.current + 1
    ensures op.Create? ==> op.content.transactions != [] && op.executed
    ensures op.AddSignature? ==>
              && op.sequence == k && op.validator in op.stakes && k in s.pending
              && SameContent(s.pending[k], Step(s, op).finalized[k])
              && Step(s, op).finalized[k].signers == s.pending[k].signers + [op.validator]
  {
    hide Fits, AllFit;
    if op.AddSignature? && Accepts(s, op) {
      WaitingIsNext(s, op);
      SequenceOf(s, op.sequence, Signed(s.pending[op.sequence], op));
    }
  }

  lemma StartsEmpty(ops: seq<Op>)
    ensures Run(ops).pending != map[] || Run(ops).finalized != map[] ==> ops != []
  {
  }

  lemma OpenedNow(ops: seq<Op>, snapshot: Snapshot)
    requires ops != []
    requires var init, op := ops[..|ops| - 1], ops[|ops| - 1];
             && op.Create? && op.content.transactions != [] && op.executed
             && snapshot.sequence == Run(init).current + 1 && snapshot.timestamp == op.content.timestamp
             && snapshot.stateRoot == op.content.stateRoot && snapshot.transactions == op.content.transactions
             && snapshot.cycle == op.content.cycle && snapshot.digest == op.content.digest
    ensures OpenedBy(ops, |ops| - 1, Run(ops[..|ops| - 1]).current + 1, snapshot)
  {
  }

  /** A snapshot that still waits has what its creation brought, and the signers that have arrived since. */
  lemma {:induction false} PendingOpenedBy(ops: seq<Op>, k: nat) returns (c: nat)
    requires k in Run(ops).pending && k !in Run(ops).finalized
    ensures OpenedBy(ops, c, k, Run(ops).pending[k])
    ensures c < |ops| && ops[c].Create? && Run(ops).pending[k].signers == SignersSince(ops, c, k)
  {
    hide Step, Inv, OpenedBy, SameContent;
    StartsEmpty(ops);
    var init, op := ops[..|ops| - 1], ops[|ops| - 1];
    RunKeepsInv(init);
    RunKeepsInv(ops);
    if op.Create? && op.content.transactions != [] && op.executed {
      c := |init|;
      StepOpens(Run(init), op);
      CreationWaits(Run(init), op, k);
      OpenedNow(ops, Run(ops).pending[k]);
    } else {
      StepKeepsWaiting(Run(init), op, k);
      c := PendingOpenedBy(init, k);
      OpenedEarlier(ops, c, k, Run(init).pending[k], Run(ops).pending[k]);
    }
  }

  /** A final snapshot has what its creation brought, and the signers that had arrived when it became final. */
  lemma {:induction false} FinalizedOpenedBy(ops: seq<Op>, k: nat) returns (c: nat, f: nat)
    requires k in Run(ops).finalized
    ensures OpenedBy(ops, c, k, Run(ops).finalized[k])
    ensures c <= f < |ops| && ops[c].Create? && Run(ops).finalized[k].signers == SignersSince(ops[..f + 1], c, k)
    ensures k !in Run(ops[..f]).finalized
  {
    hide Step, Inv, OpenedBy, SameContent;
    StartsEmpty(ops);
    var init, op := ops[..|ops| - 1], ops[|ops| - 1];
    RunKeepsInv(init);
    assert ops[..|ops|] == ops;
    if k in Run(init).finalized {
      StepKeepsFinalized(Run(init), op, k);
      c, f := FinalizedOpenedBy(init, k);
      SameSnapshot(Run(init).finalized[k]);
      OpenedEarlier(ops, c, k, Run(init).finalized[k], Run(ops).finalized[k]);
      assert init[..f + 1] == ops[..f + 1] && init[..f] == ops[..f];
    } else {
      f := |init|;
      StepFinalizes(Run(init), op, k);
      if op.Create? {
        c := |init|;
        StepOpens(Run(init), op);
        OpenedNow(ops, Run(ops).finalized[k]);
      } else {
        c := PendingOpenedBy(init, k);
        OpenedEarlier(ops, c, k, Run(init).pending[k], Run(ops).finalized[k]);
      }
    }
  }

  lemma SameSnapshot(snapshot: Snapshot)
    ensures SameContent(snapshot, snapshot)
  {
  }

  // ---------- Exactly when a snapshot becomes final ----------

  /** A signature for a waiting snapshot makes it final exactly when all its signers together make a quorum. */
  lemma SignatureFinalizesExactly(s: State, op: Op)
    requires Inv(s) && op.AddSignature?
    requires op.sequence in s.pending && op.sequence !in s.finalized && op.validator in op.stakes
    ensures op.sequence in Step(s, op).finalized <==>
            3 * WeightOf(op.stakes, s.pending[op.sequence].signers + [op.validator]) > 2 * op.total
    ensures op.sequence !in Step(s, op).finalized ==>
              && op.sequence in Step(s, op).pending
              && Step(s, op).pending[op.sequence].signers == s.pending[op.sequence].signers + [op.validator]
  {
    hide Inv;
    WaitingIsNext(s, op);
    SequenceOf(s, op.sequence, Signed(s.pending[op.sequence], op));
  }

  /** A signature for nothing that waits, or by a stranger, has no effect. */
  lemma OtherSignaturesIgnored(s: State, op: Op)
    requires op.AddSignature?
    requires op.sequence !in s.pending || op.sequence in s.finalized || op.validator !in op.stakes
    ensures Step(s, op) == s
  {
  }

  /** A creation is final at once exactly when the creator alone is a quorum; without content it has no effect. */
  lemma CreationFinalizesExactly(s: State, op: Op)
    requires Inv(s) && op.Create?
    ensures op.content.transactions == [] || !op.executed ==> Step(s, op) == s
    ensures op.content.transactions != [] && op.executed ==>
              var own := if op.me.Some? && op.me.value in op.stakes then op.stakes[op.me.value] else 0;
              s.current + 1 in Step(s, op).finalized <==> 3 * own > 2 * op.total
  {
    hide Fits, AllFit;
  }

  /** Over every run under one stake table, no snapshot that still waits carries a quorum. */
  lemma {:induction false} WaitingHasNoQuorum(ops: seq<Op>, table: map<ValidatorID, nat>, total: nat, k: nat)
    requires forall op :: op in ops ==> ReportsTable(op, table, total)
    requires k in Run(ops).pending && k !in Run(ops).finalized
    ensures 3 * WeightOf(table, Run(ops).pending[k].signers) <= 2 * total
  {
    hide Step, Inv, SameContent;
    StartsEmpty(ops);
    var init, op := ops[..|ops| - 1], ops[|ops| - 1];
    RunKeepsInv(init);
    RunKeepsInv(ops);
    assert ReportsTable(op, table, total);
    if op.Create? && op.content.transactions != [] && op.executed {
      CreationFinalizesExactly(Run(init), op);
      StepOpens(Run(init), op);
      CreationWaits(Run(init), op, k);
      SingleWeight(table, op.me);
    } else {
      StepKeepsWaiting(Run(init), op, k);
      if op.AddSignature? && op.sequence == k && op.validator in op.stakes {
        SignatureFinalizesExactly(Run(init), op);
      } else {
        assert Run(init).pending[k].signers + [] == Run(init).pending[k].signers;
        WaitingHasNoQuorum(init, table, total, k);
      }
    }
  }

  lemma {:induction false} CurrentGrows(ops: seq<Op>, i: nat, j: nat)
    requires i <= j <= |ops|
    ensures Run(ops[..i]).current <= Run(ops[..j]).current
  {
    hide Step, Inv;
    if i < j {
      CurrentGrows(ops, i, j - 1);
      RunKeepsInv(ops[..j - 1]);
      RunNext(ops, j - 1);
      StepExtends(Run(ops[..j - 1]), ops[j - 1]);
    }
  }

  /** Later sequences are opened by later creations. */
  lemma {:induction false} OpenedInOrder(ops: seq<Op>, c: nat, k: nat, c': nat, k': nat, one: Snapshot,
                                         other: Snapshot)
    requires OpenedBy(ops, c, k, one) && OpenedBy(ops, c', k', other) && k < k'
    ensures c < c'
  {
    hide Run;
    if c' <= c { CurrentGrows(ops, c', c); }
  }

  // ---------- Quorums over whole runs ----------

  ghost predicate Weighed(snapshot: Snapshot, stakes: map<ValidatorID, nat>) {
    snapshot.stakeWeight == WeightOf(stakes, snapshot.signers)
  }

  /** Whatever a step finalizes carries the weight its signers have at that moment, and that is a quorum. */
  lemma StepFinalizesWithQuorum(s: State, op: Op, k: nat)
    requires Inv(s) && k in Step(s, op).finalized && k !in s.finalized
    ensures Weighed(Step(s, op).finalized[k], op.stakes) && HasQuorum(Step(s, op).finalized[k].stakeWeight, op.total)
  {
    hide Inv, Fits, PreviousDigest;
    if op.AddSignature? {
      WaitingIsNext(s, op);
    } else {
      SingleWeight(op.stakes, op.me);
    }
  }

  lemma SingleWeight(stakes: map<ValidatorID, nat>, me: Option<ValidatorID>)
    ensures WeightOf(stakes, []) == 0
    ensures me.Some? ==> WeightOf(stakes, [me.value]) == if me.value in stakes then stakes[me.value] else 0
  {
    if me.Some? { assert [me.value][1..] == []; }
  }

  /** The validator set does not change while the snapshots are made and signed. */
  ghost predicate ReportsTable(op: Op, table: map<ValidatorID, nat>, total: nat) {
    op.stakes == table && op.total == total
  }

  /** Over every run under one stake table each finalized snapshot records its signers' weight, and that is a quorum. */
  lemma {:induction false} FinalizedHasQuorum(ops: seq<Op>, table: map<ValidatorID, nat>, total: nat, k: nat)
    requires forall op :: op in ops ==> ReportsTable(op, table, total)
    requires k in Run(ops).finalized
    ensures Weighed(Run(ops).finalized[k], table) && HasQuorum(Run(ops).finalized[k].stakeWeight, total)
  {
    hide Step, Inv, Weighed;
    if ops != [] {
      var init, op := ops[..|ops| - 1], ops[|ops| - 1];
      RunKeepsInv(init);
      assert ReportsTable(op, table, total);
      if k in Run(init).finalized {
        FinalizedHasQuorum(init, table, total, k);
        StepKeepsFinalized(Run(init), op, k);
      } else {
        StepFinalizesWithQuorum(Run(init), op, k);
      }
    }
  }

  /** Two snapshots whose recorded weights make a quorum of distinct stakers share an honest signer. */
  lemma SnapshotQuorumsIntersect(a: Snapshot, b: Snapshot, stakes: map<ValidatorID, nat>, total: nat,
                                 byzantine: set<ValidatorID>) returns (v: ValidatorID)
    requires Weighed(a, stakes) && Weighed(b, stakes)
    requires DistinctStakers(stakes, a.signers) && DistinctStakers(stakes, b.signers)
    requires HasQuorum(a.stakeWeight, total) && HasQuorum(b.stakeWeight, total)
    requires Total(stakes) <= total && StakeOf(stakes, byzantine) <= MaxMaliciousStake(total)
    ensures v in a.signers && v in b.signers && v !in byzantine
  {
    ListedWeight(stakes, a.signers);
    ListedWeight(stakes, b.signers);
    v := QuorumsShareHonest(stakes, total, Elements(a.signers), Elements(b.signers), byzantine);
  }

  /** Two nodes that finalized one sequence from distinct stakers have an honest signer in common. */
  lemma {:induction false} FinalizedShareHonest(ops: seq<Op>, ops': seq<Op>, table: map<ValidatorID, nat>, total: nat,
                                                byzantine: set<ValidatorID>, k: nat) returns (v: ValidatorID)
    requires forall op :: op in ops ==> ReportsTable(op, table, total)
    requires forall op :: op in ops' ==> ReportsTable(op, table, total)
    requires Total(table) <= total && StakeOf(table, byzantine) <= MaxMaliciousStake(total)
    requires k in Run(ops).finalized && k in Run(ops').finalized
    requires DistinctStakers(table, Run(ops).finalized[k].signers)
    requires DistinctStakers(table, Run(ops').finalized[k].signers)
    ensures v in Run(ops).finalized[k].signers && v in Run(ops').finalized[k].signers && v !in byzantine
  {
    hide Run;
    FinalizedHasQuorum(ops, table, total, k);
    FinalizedHasQuorum(ops', table, total, k);
    v := SnapshotQuorumsIntersect(Run(ops).finalized[k], Run(ops').finalized[k], table, total, byzantine);
  }

  /** An honest validator signs one digest for a sequence. */
  ghost predicate HonestSignOnce(a: Snapshot, b: Snapshot, byzantine: set<ValidatorID>) {
    forall v :: v in a.signers && v in b.signers && v !in byzantine ==> a.digest == b.digest
  }

  /** Two nodes never finalize different snapshots for one sequence, nor, barring collisions, before it. */
  lemma {:induction false} NodesAgree(ops: seq<Op>, ops': seq<Op>, table: map<ValidatorID, nat>, total: nat,
                                      byzantine: set<ValidatorID>, k: nat)
    requires forall op :: op in ops ==> ReportsTable(op, table, total)
    requires forall op :: op in ops' ==> ReportsTable(op, table, total)
    requires Total(table) <= total && StakeOf(table, byzantine) <= MaxMaliciousStake(total)
    requires k in Run(ops).finalized && k in Run(ops').finalized
    requires DistinctStakers(table, Run(ops).finalized[k].signers)
    requires DistinctStakers(table, Run(ops').finalized[k].signers)
    requires HonestSignOnce(Run(ops).finalized[k], Run(ops').finalized[k], byzantine)
    ensures Run(ops).finalized[k].digest == Run(ops').finalized[k].digest
    ensures NoGaps(Run(ops)) && NoGaps(Run(ops'))
    ensures CollisionFree(Chain(Run(ops)), Chain(Run(ops'))) ==> Chain(Run(ops))[..k] == Chain(Run(ops'))[..k]
  {
    hide Run, CollisionFree, Linked;
    var v := FinalizedShareHonest(ops, ops', table, total, byzantine, k);
    ChainIsLinked(ops);
    ChainIsLinked(ops');
    SameDigestSamePrefix(Run(ops), Run(ops'), k);
  }

  /** Snapshots with one digest stand at the end of one history. */
  lemma SameDigestSamePrefix(s: State, t: State, k: nat)
    requires NoGaps(s) && NoGaps(t) && Linked(Chain(s)) && Linked(Chain(t))
    requires k in s.finalized && k in t.finalized && s.finalized[k].digest == t.finalized[k].digest
    ensures CollisionFree(Chain(s), Chain(t)) ==> Chain(s)[..k] == Chain(t)[..k]
  {
    hide Linked, CollisionFree;
    if CollisionFree(Chain(s), Chain(t)) {
      LinkedPrefix(Chain(s), k);
      LinkedPrefix(Chain(t), k);
      CollisionFreePrefix(Chain(s), Chain(t), k, k);
      TipFixesHistory(Chain(s)[..k], Chain(t)[..k]);
    }
  }

  /** Two nodes whose latest finalized digest is the same have finalized the same chain, barring collisions. */
  lemma {:induction false} SameLatestSameChain(ops: seq<Op>, ops': seq<Op>)
    requires PreviousDigest(Run(ops)) == PreviousDigest(Run(ops'))
    ensures NoGaps(Run(ops)) && NoGaps(Run(ops'))
    ensures CollisionFree(Chain(Run(ops)), Chain(Run(ops'))) ==> Chain(Run(ops)) == Chain(Run(ops'))
  {
    hide Run, CollisionFree, Linked, Tip;
    ChainIsLinked(ops);
    ChainIsLinked(ops');
    TipIsLatest(Run(ops));
    TipIsLatest(Run(ops'));
    if CollisionFree(Chain(Run(ops)), Chain(Run(ops'))) { TipFixesHistory(Chain(Run(ops)), Chain(Run(ops'))); }
  }

  lemma TipIsLatest(s: State)
    requires NoGaps(s)
    ensures Tip(Chain(s)) == PreviousDigest(s)
  {
  }

  /** The chain a run has finalized is the beginning of the chain of every continuation. */
  lemma {:induction false} ChainOnlyGrows(ops: seq<Op>, more: seq<Op>)
    ensures NoGaps(Run(ops)) && NoGaps(Run(ops + more)) && Chain(Run(ops)) <= Chain(Run(ops + more))
  {
    hide Run, Step, Linked, Fits, AllFit;
    var all := ops + more;
    forall i | 0 <= i <= |all| ensures NoGaps(Run(all[..i])) { RunKeepsInv(all[..i]); }
    var chains := seq(|all| + 1, i requires 0 <= i <= |all| => Chain(Run(all[..i])));
    forall i | 0 <= i < |chains| - 1 ensures ChainStep(chains[i], chains[i + 1]) {
      RunKeepsInv(all[..i]);
      RunNext(all, i);
      StepRefinesChain(Run(all[..i]), all[i]);
    }
    assert all[..|ops|] == ops && all[..|all|] == all;
    ChainIsLinked(ops);
    BehaviourAppends(chains, |ops|, |all|);
  }

  lemma RunNext(ops: seq<Op>, i: nat)
    requires i < |ops|
    ensures Run(ops[..i + 1]) == Step(Run(ops[..i]), ops[i])
  {
    assert ops[..i + 1][..i] == ops[..i];
  }
}
