/** What a run of the snapshot manager says about each pending and each retained snapshot, operation by operation. */
module SnapshotHistory {
  import opened Wrappers
  import opened Collections
  import opened Quorum
  import opened Certificates
  import opened SnapshotSpec

  /** The snapshot created by `op` with that sequence number. */
  ghost predicate MadeBy(op: Op, k: nat, snapshot: Snapshot) {
    && op.Create? && snapshot.sequence == k && snapshot.timestamp == op.clock.millis
    && snapshot.stateRoot == op.stateRoot && snapshot.transactions == op.transactions && snapshot.cycle == op.cycle
    && snapshot.digest == op.digest
  }

  /** A certificate for the state root, opened by the same operation. */
  ghost predicate CertifiedBy(op: Op, k: nat, certificate: Cert) {
    && op.Create? && certificate.sequence == k && certificate.digest == op.stateRoot
    && certificate.totalStake == op.totalStake && certificate.createdAt == op.clock.seconds
  }

  /**
   * The signatures that arrived for `k` after creation `c`: with a positive weight, no later than the timeout, and the
   * first of each validator.
   */
  ghost function SignaturesSince(timeout: nat, ops: seq<Op>, c: nat, k: nat): map<ValidatorID, SignatureInfo>
    requires c < |ops| && ops[c].Create?
  {
    var n := |ops| - 1;
    if n == c then map[]
    else
      var before, op := SignaturesSince(timeout, ops[..n], c, k), ops[n];
      if && op.AddSignature? && op.sequence == k && op.stakeWeight > 0 && op.validator !in before
         && op.clock.instant <= ops[c].clock.instant + timeout
      then before[op.validator := SignatureInfo(op.validator, op.signature, op.stakeWeight, op.clock.seconds)]
      else before
  }

  ghost predicate Matches(timeout: nat, ops: seq<Op>, c: nat, k: nat, p: Pending) {
    && LastCreate(ops, c) && MadeBy(ops[c], k, p.snapshot) && CertifiedBy(ops[c], k, p.certificate)
    && p.createdAt == ops[c].clock.instant && p.timeout == timeout
    && p.certificate.signatures == SignaturesSince(timeout, ops, c, k)
  }

  lemma CreateMatches(timeout: nat, ops: seq<Op>, op: Op, s: Manager)
    requires op.Create? && s.timeout == timeout
    ensures Matches(timeout, ops + [op], |ops|, s.latest + 1, Created(s, op).pending[s.latest + 1])
  {
  }

  lemma StepCreates(s: Manager, op: Op, k: nat)
    requires Inv(s) && op.Create? && k in Step(s, op).pending
    ensures k == s.latest + 1 && Step(s, op) == Created(s, op)
  {
    hide PendingWaits, FinalIsCertified;
    InvBoundsPending(s);
  }

  /** The operation is a signature for `k` that comes in time. */
  predicate Arrives(op: Op, k: nat, p: Pending) {
    op.AddSignature? && op.sequence == k && op.clock.instant <= p.createdAt + p.timeout
  }

  function SignedBy(p: Pending, op: Op): Pending
    requires op.AddSignature?
  {
    p.(certificate := Sign(p.certificate, op.validator, op.signature, op.stakeWeight, op.clock.seconds))
  }

  lemma MatchesUnsigned(timeout: nat, ops: seq<Op>, op: Op, c: nat, k: nat, p: Pending)
    requires Matches(timeout, ops, c, k, p) && !op.Create? && !Arrives(op, k, p)
    ensures Matches(timeout, ops + [op], c, k, p)
  {
    assert (ops + [op])[..|ops|] == ops;
  }

  lemma MatchesSigned(timeout: nat, ops: seq<Op>, op: Op, c: nat, k: nat, p: Pending)
    requires Matches(timeout, ops, c, k, p) && Arrives(op, k, p)
    ensures Matches(timeout, ops + [op], c, k, SignedBy(p, op))
  {
    assert (ops + [op])[..|ops|] == ops;
  }

  /** What a step other than a creation does to a pending snapshot, in terms of the operation. */
  lemma StepKeepsPending(s: Manager, op: Op, k: nat)
    requires Inv(s) && !op.Create? && k in Step(s, op).pending
    ensures k in s.pending
    ensures Step(s, op).pending[k] == if Arrives(op, k, s.pending[k]) then SignedBy(s.pending[k], op) else s.pending[k]
  {
    hide PendingWaits, FinalIsCertified, Newest, CertInv, Sign;
  }

  lemma {:induction false} TimeoutIsFixed(timeout: nat, ops: seq<Op>)
    ensures Run(timeout, ops).timeout == timeout
  {
    if ops != [] { TimeoutIsFixed(timeout, ops[..|ops| - 1]); }
  }

  lemma NothingAtFirst(timeout: nat, ops: seq<Op>)
    ensures Run(timeout, ops).pending != map[] || Run(timeout, ops).finalized != map[] ==> ops != []
    ensures ops != [] ==> Run(timeout, ops) == Step(Run(timeout, ops[..|ops| - 1]), ops[|ops| - 1])
  {
  }

  /** Over every run the pending snapshot is the last creation's, with exactly the signatures that count since. */
  lemma {:induction false} PendingExactly(timeout: nat, ops: seq<Op>, k: nat) returns (c: nat)
    requires k in Run(timeout, ops).pending
    ensures Matches(timeout, ops, c, k, Run(timeout, ops).pending[k])
  {
    hide Run, Step, Matches, Inv;
    NothingAtFirst(timeout, ops);
    var init, op := ops[..|ops| - 1], ops[|ops| - 1];
    RunKeepsInv(timeout, init);
    if op.Create? {
      c := |init|;
      TimeoutIsFixed(timeout, init);
      assert init + [op] == ops;
      StepCreates(Run(timeout, init), op, k);
      CreateMatches(timeout, init, op, Run(timeout, init));
    } else {
      StepKeepsPending(Run(timeout, init), op, k);
      c := PendingExactly(timeout, init, k);
      assert init + [op] == ops;
      if Arrives(op, k, Run(timeout, init).pending[k]) {
        MatchesSigned(timeout, init, op, c, k, Run(timeout, init).pending[k]);
      } else {
        MatchesUnsigned(timeout, init, op, c, k, Run(timeout, init).pending[k]);
      }
    }
  }

  // ---------- Timeouts ----------

  /** Expiry is decided by the creation's own clock: later than its instant plus the timeout. */
  lemma {:induction false} ExpiresExactly(timeout: nat, ops: seq<Op>, k: nat, clock: Clock) returns (c: nat)
    requires k in Run(timeout, ops).pending
    ensures LastCreate(ops, c)
    ensures k in TimedOut(Run(timeout, ops), clock.instant) <==> clock.instant > ops[c].clock.instant + timeout
    ensures k !in Run(timeout, ops + [ProcessTimeouts(clock)]).pending <==>
            clock.instant > ops[c].clock.instant + timeout
  {
    hide Run, SignaturesSince, MadeBy, CertifiedBy;
    c := PendingExactly(timeout, ops, k);
    RunOne(timeout, ops, ProcessTimeouts(clock));
    TimeoutsRemove(Run(timeout, ops), k, clock);
  }

  lemma TimeoutsRemove(s: Manager, k: nat, clock: Clock)
    requires k in s.pending
    ensures k in TimedOut(s, clock.instant) <==> clock.instant > s.pending[k].createdAt + s.pending[k].timeout
    ensures k !in Step(s, ProcessTimeouts(clock)).pending <==> k in TimedOut(s, clock.instant)
  {
  }

  /** A signature of positive weight for the pending snapshot counts exactly when it comes in time and is a first. */
  lemma {:induction false} SignatureCountsExactly(timeout: nat, ops: seq<Op>, op: Op) returns (c: nat)
    requires op.AddSignature? && op.sequence in Run(timeout, ops).pending && op.stakeWeight > 0
    ensures LastCreate(ops, c)
    ensures op.clock.instant > ops[c].clock.instant + timeout ==>
              Run(timeout, ops + [op]) == Run(timeout, ops)
    ensures op.clock.instant <= ops[c].clock.instant + timeout ==>
              && op.sequence in Run(timeout, ops + [op]).pending
              && var before := Run(timeout, ops).pending[op.sequence].certificate.signatures;
              && Run(timeout, ops + [op]).pending[op.sequence].certificate.signatures ==
                 if op.validator in before then before
                 else before[op.validator :=
                        SignatureInfo(op.validator, op.signature, op.stakeWeight, op.clock.seconds)]
  {
    hide Run, SignaturesSince, MadeBy, CertifiedBy;
    c := PendingExactly(timeout, ops, op.sequence);
    RunOne(timeout, ops, op);
    SignaturesArrive(Run(timeout, ops), op);
  }

  lemma SignaturesArrive(s: Manager, op: Op)
    requires op.AddSignature? && op.sequence in s.pending && op.stakeWeight > 0
    ensures var p := s.pending[op.sequence];
            && (op.clock.instant > p.createdAt + p.timeout ==> Step(s, op) == s)
            && (op.clock.instant <= p.createdAt + p.timeout ==>
                  && op.sequence in Step(s, op).pending
                  && Step(s, op).pending[op.sequence].certificate.signatures ==
                     if op.validator in p.certificate.signatures then p.certificate.signatures
                     else p.certificate.signatures[op.validator :=
                            SignatureInfo(op.validator, op.signature, op.stakeWeight, op.clock.seconds)])
  {
  }

  // ---------- Retained snapshots ----------

  /** Created by `c` and finalized by `f`, with exactly the signatures that had counted by then. */
  ghost predicate FinalizedBy(timeout: nat, ops: seq<Op>, c: nat, f: nat, k: nat, final: Final) {
    && f < |ops| && ops[f].Finalize? && ops[f].sequence == k && LastCreate(ops[..f], c)
    && MadeBy(ops[c], k, final.snapshot) && CertifiedBy(ops[c], k, final.certificate)
    && final.certificate.finalizedAt == Some(ops[f].clock.seconds)
    && final.certificate.signatures == SignaturesSince(timeout, ops[..f], c, k)
  }

  lemma FinalizeMatches(timeout: nat, ops: seq<Op>, c: nat, k: nat, p: Pending, final: Final)
    requires ops != [] && Matches(timeout, ops[..|ops| - 1], c, k, p)
    requires ops[|ops| - 1].Finalize? && ops[|ops| - 1].sequence == k && p.certificate.hasQuorum
    requires final == Final(p.snapshot, Finalized(p.certificate, ops[|ops| - 1].clock.seconds))
    ensures FinalizedBy(timeout, ops, c, |ops| - 1, k, final)
  {
    assert ops[..|ops| - 1][c] == ops[c];
  }

  lemma FinalizedEarlier(timeout: nat, ops: seq<Op>, c: nat, f: nat, k: nat, final: Final)
    requires ops != [] && FinalizedBy(timeout, ops[..|ops| - 1], c, f, k, final)
    ensures FinalizedBy(timeout, ops, c, f, k, final)
  {
    assert ops[..|ops| - 1][..f] == ops[..f] && ops[..|ops| - 1][f] == ops[f] && ops[..|ops| - 1][c] == ops[c];
  }

  lemma StepFinalizes(s: Manager, op: Op, k: nat)
    requires Inv(s) && k in Step(s, op).finalized && !(k in s.finalized && Step(s, op).finalized[k] == s.finalized[k])
    ensures op.Finalize? && op.sequence == k && k in s.pending && s.pending[k].certificate.hasQuorum
    ensures Step(s, op).finalized[k] == Final(s.pending[k].snapshot,
                                              Finalized(s.pending[k].certificate, op.clock.seconds))
  {
    hide PendingWaits, FinalIsCertified, Newest, CertInv, Sign, Finalized;
  }

  /** Over every run a retained snapshot is its creation's, finalized later with the signatures counted by then. */
  lemma {:induction false} FinalExactly(timeout: nat, ops: seq<Op>, k: nat) returns (c: nat, f: nat)
    requires k in Run(timeout, ops).finalized
    ensures FinalizedBy(timeout, ops, c, f, k, Run(timeout, ops).finalized[k])
  {
    hide Run, Step, Matches, FinalizedBy, Inv, Finalized;
    NothingAtFirst(timeout, ops);
    var init, op := ops[..|ops| - 1], ops[|ops| - 1];
    var s, t := Run(timeout, init), Run(timeout, ops);
    RunKeepsInv(timeout, init);
    if k in s.finalized && t.finalized[k] == s.finalized[k] {
      c, f := FinalExactly(timeout, init, k);
      FinalizedEarlier(timeout, ops, c, f, k, t.finalized[k]);
    } else {
      StepFinalizes(s, op, k);
      c := PendingExactly(timeout, init, k);
      f := |init|;
      FinalizeMatches(timeout, ops, c, k, s.pending[k], t.finalized[k]);
    }
  }

  ghost function Following(k: nat, count: nat): seq<nat> {
    seq(count, i requires 0 <= i < count => k + 1 + i)
  }

  lemma FollowingHas(k: nat, count: nat, j: nat)
    ensures j in Following(k, count) <==> k < j <= k + count
  {
    if k < j <= k + count { assert Following(k, count)[j - k - 1] == j; }
  }

  lemma {:induction false} RetainedUpTo(s: Manager, k: nat, j: nat)
    requires Inv(s) && k in s.finalized && k <= j <= s.latest
    ensures j in s.finalized
  {
    hide PendingWaits, FinalIsCertified;
    if k < j { RetainedUpTo(s, k, j - 1); }
  }

  /** Pruning keeps a retained snapshot exactly when fewer than `keep` sequences lie between it and the latest. */
  lemma {:induction false} PruneKeepsExactly(timeout: nat, ops: seq<Op>, keep: nat, k: nat)
    requires k in Run(timeout, ops).finalized
    ensures k <= Run(timeout, ops).latest
    ensures k in Run(timeout, ops + [Prune(keep)]).finalized <==> Run(timeout, ops).latest - k < keep
  {
    hide Run, Inv;
    RunKeepsInv(timeout, ops);
    RunOne(timeout, ops, Prune(keep));
    var s := Run(timeout, ops);
    FinalRange(s, k);
    var newer := Following(k, s.latest - k);
    NoDupCount(newer);
    forall j: nat ensures j in Newer(s.finalized.Keys, k) <==> j in newer {
      FollowingHas(k, s.latest - k, j);
      if k < j <= s.latest { RetainedUpTo(s, k, j); }
      if j in s.finalized { FinalRange(s, j); }
    }
    assert Newer(s.finalized.Keys, k) == Elements(newer);
  }

  lemma FinalRange(s: Manager, k: nat)
    requires Inv(s) && k in s.finalized
    ensures 1 <= k <= s.latest
  {
    hide PendingWaits, FinalIsCertified;
  }
}
