/** The snapshot manager as a value: pending and finalized snapshots, and the effect of every operation. */
module SnapshotSpec {
  import opened Collections
  import opened Sorting
  import opened ByteStrings
  import opened Quorum
  import opened Certificates
  import opened AppendOnlyChain

  /** `Instant` for timeouts, seconds for certificates, milliseconds for snapshots. */
  datatype Clock = Clock(instant: nat, seconds: nat, millis: nat)

  datatype Snapshot = Snapshot(
    sequence: nat,
    timestamp: nat,
    previousDigest: Digest,
    stateRoot: Digest,
    transactions: seq<Digest>,
    cycle: nat,
    digest: Digest)

  datatype Pending = Pending(snapshot: Snapshot, certificate: Cert, createdAt: nat, timeout: nat)
  {
    function Elapsed(now: nat): nat { if now < createdAt then 0 else now - createdAt }
    predicate IsTimedOut(now: nat) { Elapsed(now) > timeout }
  }

  datatype Final = Final(snapshot: Snapshot, certificate: Cert)

  datatype Manager = Manager(
    latest: nat,
    pending: map<nat, Pending>,
    finalized: map<nat, Final>,
    timeout: nat)

  const MAX_PENDING := 1000

  function NewManager(timeout: nat): Manager {
    Manager(0, map[], map[], timeout)
  }

  datatype Op =
      /** `digest` is whatever the snapshot's own hash comes to. */
    | Create(stateRoot: Digest, transactions: seq<Digest>, cycle: nat, totalStake: nat, digest: Digest, clock: Clock)
    | AddSignature(sequence: nat, validator: ValidatorID, signature: Bytes, stakeWeight: nat, clock: Clock)
    | Finalize(sequence: nat, clock: Clock)
    | ProcessTimeouts(clock: Clock)
    | Prune(keep: nat)

  function PreviousDigest(latest: nat, finalized: map<nat, Final>): Digest {
    if latest + 1 > 1 && latest in finalized then finalized[latest].snapshot.digest else ZeroDigest()
  }

  function NewSnapshot(latest: nat, finalized: map<nat, Final>, op: Op): Snapshot
    requires op.Create?
  {
    Snapshot(latest + 1, op.clock.millis, PreviousDigest(latest, finalized), op.stateRoot, op.transactions, op.cycle,
             op.digest)
  }

  predicate Backpressure(s: Manager) {
    |s.pending| >= MAX_PENDING
  }

  /** The certificate commits to the state root, not to the snapshot's own digest. */
  function Created(s: Manager, op: Op): Manager
    requires op.Create?
  {
    var sequence := s.latest + 1;
    s.(pending := s.pending[sequence :=
         Pending(NewSnapshot(s.latest, s.finalized, op),
                 NewCert(sequence, op.stateRoot, op.totalStake, op.clock.seconds),
                 op.clock.instant, s.timeout)])
  }

  /** A pending snapshot is taken out before its quorum is looked at, so a premature call discards it. */
  function FinalizedIn(s: Manager, sequence: nat, seconds: nat): Manager
    requires sequence in s.pending
  {
    var p := s.pending[sequence];
    var rest := s.(pending := s.pending - {sequence});
    if p.certificate.hasQuorum
    then rest.(finalized := s.finalized[sequence := Final(p.snapshot, Finalized(p.certificate, seconds))],
               latest := sequence)
    else rest
  }

  predicate CanSign(s: Manager, op: Op)
    requires op.AddSignature?
  {
    op.sequence in s.pending && !s.pending[op.sequence].IsTimedOut(op.clock.instant)
  }

  function TimedOut(s: Manager, now: nat): set<nat> {
    set k | k in s.pending && s.pending[k].IsTimedOut(now)
  }

  ghost function Newer(keys: set<nat>, k: nat): set<nat> {
    set j | j in keys && j > k
  }

  /** The `keep` greatest keys: those with fewer than `keep` keys above them. */
  ghost function Newest(keys: set<nat>, keep: nat): set<nat> {
    set k | k in keys && |Newer(keys, k)| < keep
  }

  ghost function Step(s: Manager, op: Op): Manager {
    match op
    case Create(_, _, _, _, _, _) => if Backpressure(s) then s else Created(s, op)
    case AddSignature(sequence, v, signature, weight, clock) =>
      if !CanSign(s, op) then s
      else
        var p := s.pending[sequence];
        s.(pending := s.pending[sequence :=
             p.(certificate := Sign(p.certificate, v, signature, weight, clock.seconds))])
    case Finalize(sequence, clock) => if sequence in s.pending then FinalizedIn(s, sequence, clock.seconds) else s
    case ProcessTimeouts(clock) => s.(pending := s.pending - TimedOut(s, clock.instant))
    case Prune(keep) => s.(finalized := s.finalized - (s.finalized.Keys - Newest(s.finalized.Keys, keep)))
  }

  ghost function Run(timeout: nat, ops: seq<Op>): Manager {
    if ops == [] then NewManager(timeout) else Step(Run(timeout, ops[..|ops| - 1]), ops[|ops| - 1])
  }

  // ---------- What every reachable manager satisfies ----------

  ghost predicate PendingWaits(k: nat, p: Pending) {
    && p.snapshot.sequence == k
    && p.certificate.sequence == k
    && p.certificate.digest == p.snapshot.stateRoot
    && p.certificate.finalizedAt.None?
    && CertInv(p.certificate)
  }

  /** The one pending snapshot comes next and names the latest finalized one, if that is still retained. */
  ghost predicate PendingSound(s: Manager) {
    forall k :: k in s.pending ==>
      && k == s.latest + 1
      && PendingWaits(k, s.pending[k])
      && (s.latest == 0 ==> s.pending[k].snapshot.previousDigest == ZeroDigest())
      && (s.latest in s.finalized ==>
            s.pending[k].snapshot.previousDigest == s.finalized[s.latest].snapshot.digest)
  }

  ghost predicate FinalIsCertified(k: nat, f: Final) {
    && f.snapshot.sequence == k
    && f.certificate.sequence == k
    && f.certificate.digest == f.snapshot.stateRoot
    && f.certificate.finalizedAt.Some?
    && CertInv(f.certificate)
    && (k == 1 ==> f.snapshot.previousDigest == ZeroDigest())
  }

  ghost predicate FinalSound(s: Manager) {
    forall k :: k in s.finalized ==> 1 <= k <= s.latest && FinalIsCertified(k, s.finalized[k])
  }

  /** The retained snapshots are consecutive, end at the latest, and each names its predecessor. */
  ghost predicate Contiguous(s: Manager) {
    forall k :: k in s.finalized && k < s.latest ==>
      k + 1 in s.finalized && s.finalized[k + 1].snapshot.previousDigest == s.finalized[k].snapshot.digest
  }

  ghost predicate Inv(s: Manager) {
    PendingSound(s) && FinalSound(s) && Contiguous(s)
  }

  lemma CreateKeepsInv(s: Manager, op: Op)
    requires Inv(s) && op.Create?
    ensures Inv(Created(s, op))
  {
    NewCertInv(s.latest + 1, op.stateRoot, op.totalStake, op.clock.seconds);
  }

  lemma SignatureKeepsInv(s: Manager, op: Op)
    requires Inv(s) && op.AddSignature?
    ensures Inv(Step(s, op))
  {
    if CanSign(s, op) {
      SignKeepsInv(s.pending[op.sequence].certificate, op.validator, op.signature, op.stakeWeight, op.clock.seconds);
    }
  }

  lemma FinalizeCertifies(s: Manager, sequence: nat, seconds: nat)
    requires PendingSound(s) && FinalSound(s) && sequence in s.pending
    ensures FinalSound(FinalizedIn(s, sequence, seconds)) && PendingSound(FinalizedIn(s, sequence, seconds))
  {
    var t := FinalizedIn(s, sequence, seconds);
    var p := s.pending[sequence];
    assert PendingWaits(sequence, p);
    if p.certificate.hasQuorum {
      assert FinalIsCertified(sequence, t.finalized[sequence]);
    }
    forall k | k in t.finalized && k != sequence ensures t.finalized[k] == s.finalized[k] && k in s.finalized {}
    assert t.pending == map[] by {
      forall k | k in s.pending ensures k == sequence { assert k == s.latest + 1; }
    }
  }

  lemma {:induction false} FinalizeKeepsInv(s: Manager, sequence: nat, seconds: nat)
    requires Inv(s) && sequence in s.pending
    ensures Inv(FinalizedIn(s, sequence, seconds))
  {
    hide PendingWaits, FinalIsCertified;
    FinalizeCertifies(s, sequence, seconds);
    var t := FinalizedIn(s, sequence, seconds);
    forall k | k in t.finalized && k < t.latest
      ensures k + 1 in t.finalized && t.finalized[k + 1].snapshot.previousDigest == t.finalized[k].snapshot.digest
    {
      assert k in s.finalized;
    }
  }

  lemma NewestIsUpwardClosed(keys: set<nat>, keep: nat, k: nat, j: nat)
    requires k in Newest(keys, keep) && j in keys && k < j
    ensures j in Newest(keys, keep)
  {
    SubsetBound(Newer(keys, j), Newer(keys, k));
  }

  lemma {:induction false} PruneKeepsInv(s: Manager, keep: nat)
    requires Inv(s)
    ensures Inv(Step(s, Prune(keep)))
  {
    hide PendingWaits, FinalIsCertified, Newest;
    var t := Step(s, Prune(keep));
    assert PendingSound(t) && FinalSound(t);
    forall k | k in t.finalized && k < t.latest
      ensures k + 1 in t.finalized && t.finalized[k + 1].snapshot.previousDigest == t.finalized[k].snapshot.digest
    {
      assert k in s.finalized;
      NewestIsUpwardClosed(s.finalized.Keys, keep, k, k + 1);
    }
  }

  lemma {:induction false} StepKeepsInv(s: Manager, op: Op)
    requires Inv(s)
    ensures Inv(Step(s, op))
  {
    match op
    case Create(_, _, _, _, _, _) => CreateKeepsInv(s, op);
    case AddSignature(_, _, _, _, _) => SignatureKeepsInv(s, op);
    case Finalize(sequence, clock) => if sequence in s.pending { FinalizeKeepsInv(s, sequence, clock.seconds); }
    case ProcessTimeouts(clock) =>
    case Prune(keep) => PruneKeepsInv(s, keep);
  }

  /** Over every run: one pending slot, a contiguous linked range of finalized snapshots, sound certificates. */
  lemma {:induction false} RunKeepsInv(timeout: nat, ops: seq<Op>)
    ensures Inv(Run(timeout, ops))
  {
    if ops != [] {
      RunKeepsInv(timeout, ops[..|ops| - 1]);
      StepKeepsInv(Run(timeout, ops[..|ops| - 1]), ops[|ops| - 1]);
    }
  }

  lemma FinalCertificate(s: Manager, k: nat)
    requires Inv(s) && k in s.finalized
    ensures Verdict(s.finalized[k].certificate).Ok?
  {
    FinalizedVerifies(s.finalized[k].certificate);
  }

  lemma InvBoundsPending(s: Manager)
    requires Inv(s)
    ensures |s.pending| <= 1 && !Backpressure(s)
  {
    SubsetBound(s.pending.Keys, {s.latest + 1});
    assert |s.pending.Keys| == |s.pending|;
  }

  /** With one pending slot the limit of a thousand is never reached. */
  lemma BackpressureNeverFires(timeout: nat, ops: seq<Op>)
    ensures !Backpressure(Run(timeout, ops))
  {
    RunKeepsInv(timeout, ops);
    InvBoundsPending(Run(timeout, ops));
  }

  /** The sequence moves by one, and only when the pending snapshot that follows it is finalized with a quorum. */
  lemma LatestMovesByOne(s: Manager, op: Op)
    requires Inv(s)
    ensures var t := Step(s, op);
            t.latest == s.latest + 1 <==>
              op.Finalize? && op.sequence in s.pending && s.pending[op.sequence].certificate.hasQuorum
    ensures Step(s, op).latest == s.latest || Step(s, op).latest == s.latest + 1
  {
  }

  /** A call to finalize leaves something of the pending snapshot behind exactly when its quorum was there. */
  lemma FinalizeKeepsExactly(s: Manager, k: nat, clock: Clock)
    requires Inv(s) && k in s.pending
    ensures var t := Step(s, Finalize(k, clock));
            k in t.pending || k in t.finalized <==> s.pending[k].certificate.hasQuorum
  {
  }

  /** Every certificate stored with a finalized snapshot passes verification. */
  lemma StoredCertificatesVerify(timeout: nat, ops: seq<Op>, k: nat)
    requires k in Run(timeout, ops).finalized
    ensures Verdict(Run(timeout, ops).finalized[k].certificate).Ok?
  {
    RunKeepsInv(timeout, ops);
    FinalCertificate(Run(timeout, ops), k);
  }

  // ---------- The finalized snapshots form an append-only chain ----------

  function LinkOf(s: Snapshot): Link {
    Link(s.digest, s.previousDigest)
  }

  /** The operation finalizes a pending snapshot that has its quorum. */
  predicate Succeeds(s: Manager, op: Op) {
    op.Finalize? && op.sequence in s.pending && s.pending[op.sequence].certificate.hasQuorum
  }

  /** The chain after one more operation: finalizing is the only thing that extends it. */
  ghost function Extend(chain: seq<Link>, s: Manager, op: Op): seq<Link> {
    if Succeeds(s, op)
    then chain + [LinkOf(s.pending[op.sequence].snapshot)]
    else chain
  }

  ghost function History(timeout: nat, ops: seq<Op>): seq<Link> {
    if ops == [] then []
    else
      var init := ops[..|ops| - 1];
      Extend(History(timeout, init), Run(timeout, init), ops[|ops| - 1])
  }

  ghost predicate Follows(s: Manager, chain: seq<Link>) {
    && |chain| == s.latest
    && forall k :: k in s.finalized && k <= |chain| ==> k >= 1 && chain[k - 1] == LinkOf(s.finalized[k].snapshot)
  }

  ghost predicate KeepsTip(s: Manager) {
    s.latest > 0 ==> s.latest in s.finalized
  }

  lemma StepFollows(s: Manager, op: Op, chain: seq<Link>)
    requires Inv(s) && Follows(s, chain)
    ensures Follows(Step(s, op), Extend(chain, s, op))
  {
    hide PendingWaits, FinalIsCertified, Newest, TimedOut, Sign, NewCert;
  }

  /** As long as pruning keeps at least one snapshot, the manager takes only steps of the abstract chain. */
  lemma StepRefinesChain(s: Manager, op: Op, chain: seq<Link>)
    requires Inv(s) && Follows(s, chain) && KeepsTip(s)
    requires op.Prune? ==> op.keep > 0
    ensures ChainStep(chain, Extend(chain, s, op)) && KeepsTip(Step(s, op))
  {
    hide PendingWaits, FinalIsCertified, TimedOut, Sign, NewCert;
    if op.Prune? {
      if s.latest > 0 { assert Newer(s.finalized.Keys, s.latest) == {}; }
    } else if op.Finalize? && op.sequence in s.pending {
      assert op.sequence == s.latest + 1;
    }
  }

  lemma {:induction false} RunFollows(timeout: nat, ops: seq<Op>)
    ensures Follows(Run(timeout, ops), History(timeout, ops))
  {
    if ops != [] {
      var init := ops[..|ops| - 1];
      RunFollows(timeout, init);
      RunKeepsInv(timeout, init);
      StepFollows(Run(timeout, init), ops[|ops| - 1], History(timeout, init));
    }
  }

  /** Every pruning retains at least one snapshot. */
  ghost predicate AlwaysKeeps(ops: seq<Op>) {
    forall op :: op in ops ==> (op.Prune? ==> op.keep > 0)
  }

  lemma {:induction false} HistoryIsLinked(timeout: nat, ops: seq<Op>)
    requires AlwaysKeeps(ops)
    ensures Linked(History(timeout, ops)) && KeepsTip(Run(timeout, ops))
  {
    if ops != [] {
      var init, op := ops[..|ops| - 1], ops[|ops| - 1];
      HistoryIsLinked(timeout, init);
      RunKeepsInv(timeout, init);
      RunFollows(timeout, init);
      StepRefinesChain(Run(timeout, init), op, History(timeout, init));
      StepKeepsLinked(History(timeout, init), History(timeout, ops));
    }
  }

  /** The digest a new snapshot would name. */
  ghost function LatestDigest(s: Manager): Digest {
    if s.latest in s.finalized then s.finalized[s.latest].snapshot.digest else ZeroDigest()
  }

  lemma {:induction false} TipIsLatest(timeout: nat, ops: seq<Op>)
    requires AlwaysKeeps(ops)
    ensures Tip(History(timeout, ops)) == LatestDigest(Run(timeout, ops))
    ensures Linked(History(timeout, ops)) && |History(timeout, ops)| == Run(timeout, ops).latest
  {
    hide Run, History, Linked;
    HistoryIsLinked(timeout, ops);
    RunFollows(timeout, ops);
    RunKeepsInv(timeout, ops);
  }

  /** Two nodes whose latest snapshots have one digest have finalized the same history, barring collisions. */
  lemma {:induction false} SameLatestSameHistory(timeout: nat, ops: seq<Op>, timeout': nat, ops': seq<Op>)
    requires AlwaysKeeps(ops) && AlwaysKeeps(ops')
    requires LatestDigest(Run(timeout, ops)) == LatestDigest(Run(timeout', ops'))
    requires CollisionFree(History(timeout, ops), History(timeout', ops'))
    ensures History(timeout, ops) == History(timeout', ops') && Run(timeout, ops).latest == Run(timeout', ops').latest
  {
    hide Run, History, Linked, Tip, LatestDigest, AlwaysKeeps;
    TipIsLatest(timeout, ops);
    TipIsLatest(timeout', ops');
    TipFixesHistory(History(timeout, ops), History(timeout', ops'));
  }

  /** The history of a run is the beginning of the history of every continuation. */
  lemma {:induction false} HistoryOnlyGrows(timeout: nat, ops: seq<Op>, more: seq<Op>)
    requires AlwaysKeeps(ops + more)
    ensures History(timeout, ops) <= History(timeout, ops + more)
  {
    hide Run, History, Step, Extend, Linked;
    var all := ops + more;
    var chains := seq(|all| + 1, i requires 0 <= i <= |all| => History(timeout, all[..i]));
    forall i | 0 <= i < |chains| - 1 ensures ChainStep(chains[i], chains[i + 1]) {
      HistoryIsLinked(timeout, all[..i]);
      RunKeepsInv(timeout, all[..i]);
      RunFollows(timeout, all[..i]);
      assert all[i] in all;
      StepRefinesChain(Run(timeout, all[..i]), all[i], History(timeout, all[..i]));
      TakeOneMore(all, i);
      RunOne(timeout, all[..i], all[i]);
    }
    assert all[..|ops|] == ops && all[..|all|] == all;
    HistoryIsLinked(timeout, ops);
    BehaviourAppends(chains, |ops|, |all|);
  }

  /** A new snapshot names the end of the history exactly when the latest snapshot is still retained. */
  lemma {:induction false} NewSnapshotLinks(timeout: nat, ops: seq<Op>, op: Op)
    requires op.Create?
    ensures var s, chain := Run(timeout, ops), History(timeout, ops);
            NewSnapshot(s.latest, s.finalized, op).previousDigest == Tip(chain) <==>
            s.latest == 0 || s.latest in s.finalized || Tip(chain) == ZeroDigest()
  {
    RunKeepsInv(timeout, ops);
    RunFollows(timeout, ops);
  }

  // ---------- Exactly when the history is linked ----------

  ghost predicate LastCreate(ops: seq<Op>, c: nat) {
    c < |ops| && ops[c].Create? && forall j :: c < j < |ops| ==> !ops[j].Create?
  }

  /** Nothing is finalized yet, or the latest snapshot is still retained (or its digest is zero itself). */
  ghost predicate TipAvailable(timeout: nat, ops: seq<Op>) {
    var s := Run(timeout, ops);
    s.latest == 0 || s.latest in s.finalized || Tip(History(timeout, ops)) == ZeroDigest()
  }

  /** The snapshot that is pending comes from the last creation, and the history has not moved since. */
  lemma {:induction false} PendingFromCreate(timeout: nat, ops: seq<Op>, k: nat) returns (c: nat)
    requires k in Run(timeout, ops).pending
    ensures LastCreate(ops, c) && History(timeout, ops[..c]) == History(timeout, ops)
    ensures var s := Run(timeout, ops[..c]);
            Run(timeout, ops).pending[k].snapshot == NewSnapshot(s.latest, s.finalized, ops[c])
  {
    hide Run, History, Step, Succeeds, NewSnapshot, Inv;
    NothingAtStart(timeout, ops);
    var init, op := ops[..|ops| - 1], ops[|ops| - 1];
    RunKeepsInv(timeout, init);
    assert ops == init + [op];
    RunOne(timeout, init, op);
    if op.Create? {
      c := |init|;
      CreateOpens(Run(timeout, init), op, k);
      HistoryStays(timeout, init, op);
    } else {
      PendingCameBefore(Run(timeout, init), op, k);
      HistoryStays(timeout, init, op);
      c := PendingFromCreate(timeout, init, k);
      assert init[..c] == ops[..c];
    }
  }

  lemma NothingAtStart(timeout: nat, ops: seq<Op>)
    ensures Run(timeout, ops).pending != map[] ==> ops != []
    ensures forall s: Manager, op: Op :: op.Create? ==> !Succeeds(s, op)
  {
  }

  lemma CreateOpens(s: Manager, op: Op, k: nat)
    requires Inv(s) && op.Create? && k in Step(s, op).pending
    ensures Step(s, op).pending[k].snapshot == NewSnapshot(s.latest, s.finalized, op)
  {
    hide PendingWaits, FinalIsCertified;
    InvBoundsPending(s);
  }

  lemma PendingCameBefore(s: Manager, op: Op, k: nat)
    requires Inv(s) && !op.Create? && k in Step(s, op).pending
    ensures k in s.pending && Step(s, op).pending[k].snapshot == s.pending[k].snapshot
    ensures !Succeeds(s, op)
  {
    hide PendingWaits, FinalIsCertified, Newest, CertInv, Sign;
  }

  lemma LinkedOneMore(chain: seq<Link>, last: Link)
    ensures Linked(chain + [last]) <==> Linked(chain) && last.previous == Tip(chain)
  {
    if Linked(chain + [last]) {
      assert (chain + [last])[..|chain|] == chain && (chain + [last])[|chain|] == last;
      LinkedPrefix(chain + [last], |chain|);
    }
    if Linked(chain) && last.previous == Tip(chain) { StepKeepsLinked(chain, chain + [last]); }
  }

  /** A finalized snapshot names the end of the history exactly when the history's end was there at its creation. */
  lemma {:induction false} FinalizeLinks(timeout: nat, ops: seq<Op>, op: Op) returns (c: nat)
    requires Succeeds(Run(timeout, ops), op)
    ensures c < |ops| && LastCreate(ops, c)
    ensures Linked(History(timeout, ops + [op])) <==> Linked(History(timeout, ops)) && TipAvailable(timeout, ops[..c])
  {
    hide Run, History, Linked, Step;
    c := PendingFromCreate(timeout, ops, op.sequence);
    RunOne(timeout, ops, op);
    LinkedOneMore(History(timeout, ops), LinkOf(Run(timeout, ops).pending[op.sequence].snapshot));
    NewSnapshotLinks(timeout, ops[..c], ops[c]);
  }

  ghost predicate OpenedAtTip(timeout: nat, ops: seq<Op>, f: nat, c: nat) {
    f < |ops| && Succeeds(Run(timeout, ops[..f]), ops[f]) && LastCreate(ops[..f], c) ==>
        TipAvailable(timeout, ops[..f][..c])
  }

  /**
   * The finalized history of a run is linked exactly when every snapshot that got finalized was created while the
   * one before it was still retained.
   */
  lemma {:induction false} HistoryLinkedExactly(timeout: nat, ops: seq<Op>)
    ensures Linked(History(timeout, ops)) <==> forall f: nat, c: nat :: OpenedAtTip(timeout, ops, f, c)
  {
    hide Run, Step, Extend, TipAvailable, Succeeds, LastCreate, Linked;
    if ops == [] {
      assert Linked([]) by { LinkedEmpty(); }
    } else {
      var n := |ops| - 1;
      var init, op := ops[..n], ops[n];
      HistoryLinkedExactly(timeout, init);
      forall f: nat, c: nat | f < n ensures OpenedAtTip(timeout, init, f, c) <==> OpenedAtTip(timeout, ops, f, c) {
        assert init[..f] == ops[..f];
      }
      assert ops == init + [op];
      if Succeeds(Run(timeout, init), op) {
        var c := FinalizeLinks(timeout, init, op);
        LastCreateIsUnique(init, c);
        assert OpenedAtTip(timeout, ops, n, c) <==> TipAvailable(timeout, init[..c]);
      } else {
        HistoryStays(timeout, init, op);
      }
    }
  }

  lemma LinkedEmpty()
    ensures Linked([])
  {
  }

  lemma LastCreateIsUnique(ops: seq<Op>, c: nat)
    requires LastCreate(ops, c)
    ensures forall d: nat :: LastCreate(ops, d) ==> d == c
  {
  }

  lemma HistoryStays(timeout: nat, ops: seq<Op>, op: Op)
    requires !Succeeds(Run(timeout, ops), op)
    ensures History(timeout, ops + [op]) == History(timeout, ops)
  {
    RunOne(timeout, ops, op);
  }

  lemma RunOne(timeout: nat, ops: seq<Op>, op: Op)
    ensures Run(timeout, ops + [op]) == Step(Run(timeout, ops), op)
    ensures History(timeout, ops + [op]) == Extend(History(timeout, ops), Run(timeout, ops), op)
  {
    assert (ops + [op])[..|ops|] == ops;
  }

  lemma ReopensAtZero(s: Manager, create: Op, v: ValidatorID, chain: seq<Link>)
    requires s.finalized == map[] && !Backpressure(s) && create.Create? && create.totalStake == 1
    ensures var k := s.latest + 1;
            var signed := Step(Step(s, create), AddSignature(k, v, [], 1, create.clock));
            Extend(chain, signed, Finalize(k, create.clock)) == chain + [Link(create.digest, ZeroDigest())]
  {
    var k := s.latest + 1;
    var created := Step(s, create);
    assert created.pending[k].certificate == NewCert(k, create.stateRoot, 1, create.clock.seconds);
    assert !created.pending[k].IsTimedOut(create.clock.instant);
  }

  lemma PruneAll(timeout: nat, ops: seq<Op>)
    ensures var t := Run(timeout, ops + [Prune(0)]);
            t.finalized == map[] && t.latest == Run(timeout, ops).latest
  {
    RunOne(timeout, ops, Prune(0));
  }

  lemma RunOther(timeout: nat, ops: seq<Op>, op: Op)
    requires !op.Finalize?
    ensures Run(timeout, ops + [op]) == Step(Run(timeout, ops), op)
    ensures History(timeout, ops + [op]) == History(timeout, ops)
  {
    RunOne(timeout, ops, op);
  }

  /** Pruning everything is what breaks the chain: the next snapshot to finalize names the zero digest. */
  lemma {:induction false} PruningAllBreaksTheChain(timeout: nat, ops: seq<Op>, create: Op, v: ValidatorID)
    requires create.Create? && create.totalStake == 1
    requires Tip(History(timeout, ops)) != ZeroDigest()
    ensures var k := Run(timeout, ops).latest + 1;
            !Linked(History(timeout, ops + [Prune(0)] + [create] + [AddSignature(k, v, [], 1, create.clock)]
                                     + [Finalize(k, create.clock)]))
  {
    hide Linked, Tip, Step, Extend, Run, History, Backpressure;
    var k := Run(timeout, ops).latest + 1;
    var sign := AddSignature(k, v, [], 1, create.clock);
    var chain := History(timeout, ops);
    PruneAll(timeout, ops);
    RunOther(timeout, ops, Prune(0));
    RunOther(timeout, ops + [Prune(0)], create);
    RunOther(timeout, ops + [Prune(0)] + [create], sign);
    RunOne(timeout, ops + [Prune(0)] + [create] + [sign], Finalize(k, create.clock));
    BackpressureNeverFires(timeout, ops + [Prune(0)]);
    ReopensAtZero(Run(timeout, ops + [Prune(0)]), create, v, chain);
    BrokenAtEnd(chain, Link(create.digest, ZeroDigest()));
  }

  lemma BrokenAtEnd(chain: seq<Link>, last: Link)
    requires last.previous != Tip(chain)
    ensures !Linked(chain + [last])
  {
    assert (chain + [last])[..|chain|] == chain;
    assert (chain + [last])[|chain|] == last;
  }

  // ---------- A snapshot finalized too early ----------

  /** A snapshot of total stake 100, which `v` with 40 and `w` with 60 sign. */
  function Opened(create: Op, v: ValidatorID): seq<Op>
    requires create.Create?
  {
    [create, AddSignature(1, v, [], 40, create.clock)]
  }

  /** One pending snapshot and nothing finalized. */
  function Waiting(timeout: nat, create: Op, certificate: Cert): Manager
    requires create.Create?
  {
    var snapshot := NewSnapshot(0, map[], create);
    Manager(0, map[1 := Pending(snapshot, certificate, create.clock.instant, timeout)], map[], timeout)
  }

  function FirstSigned(create: Op, v: ValidatorID): Cert
    requires create.Create?
  {
    Sign(Blank(create), v, [], 40, create.clock.seconds)
  }

  function Blank(create: Op): Cert
    requires create.Create?
  {
    NewCert(1, create.stateRoot, create.totalStake, create.clock.seconds)
  }

  lemma CreateIsWaiting(timeout: nat, create: Op)
    requires create.Create?
    ensures Run(timeout, [create]) == Waiting(timeout, create, Blank(create))
  {
    hide NewSnapshot;
    assert [] + [create] == [create];
    RunOne(timeout, [], create);
  }

  lemma SignWaiting(timeout: nat, create: Op, certificate: Cert, v: ValidatorID, weight: nat)
    requires create.Create?
    ensures Step(Waiting(timeout, create, certificate), AddSignature(1, v, [], weight, create.clock)) ==
            Waiting(timeout, create, Sign(certificate, v, [], weight, create.clock.seconds))
  {
    hide Sign, NewSnapshot;
  }

  lemma FinalizeWaiting(timeout: nat, create: Op, certificate: Cert)
    requires create.Create?
    ensures var t := Step(Waiting(timeout, create, certificate), Finalize(1, create.clock));
            && t.pending == map[] && t.latest == (if certificate.hasQuorum then 1 else 0)
            && t.finalized == if certificate.hasQuorum
                              then map[1 := Final(NewSnapshot(0, map[], create),
                                                  Finalized(certificate, create.clock.seconds))]
                              else map[]
  {
    hide NewSnapshot;
  }

  lemma OpenedIsWaiting(timeout: nat, create: Op, v: ValidatorID)
    requires create.Create?
    ensures Run(timeout, Opened(create, v)) == Waiting(timeout, create, FirstSigned(create, v))
  {
    hide Run, Step, Sign, Waiting, Blank;
    assert [create] + [AddSignature(1, v, [], 40, create.clock)] == Opened(create, v);
    CreateIsWaiting(timeout, create);
    RunOne(timeout, [create], AddSignature(1, v, [], 40, create.clock));
    SignWaiting(timeout, create, Blank(create), v, 40);
  }

  lemma QuorumOfBoth(create: Op, v: ValidatorID, w: ValidatorID)
    requires create.Create? && create.totalStake == 100 && v != w
    ensures !FirstSigned(create, v).hasQuorum
    ensures Sign(FirstSigned(create, v), w, [], 60, create.clock.seconds).hasQuorum
  {
  }

  /** With nothing pending, neither a signature nor another call to finalize has an effect. */
  lemma NothingToSign(timeout: nat, create: Op, certificate: Cert, w: ValidatorID)
    requires create.Create? && !certificate.hasQuorum
    ensures var t := Step(Waiting(timeout, create, certificate), Finalize(1, create.clock));
            var u := Step(t, AddSignature(1, w, [], 60, create.clock));
            u == t && Step(u, Finalize(1, create.clock)) == t
  {
    hide NewSnapshot;
  }

  /** Finalizing with 40 of 100 signed throws the snapshot away; without that call the other 60 complete it. */
  lemma PrematureFinalizeDiscards(timeout: nat, create: Op, v: ValidatorID, w: ValidatorID)
    requires create.Create? && create.totalStake == 100 && v != w
    ensures var sign, finalize := AddSignature(1, w, [], 60, create.clock), Finalize(1, create.clock);
            var early := Run(timeout, Opened(create, v) + [finalize] + [sign] + [finalize]);
            var late := Run(timeout, Opened(create, v) + [sign] + [finalize]);
            && early.pending == map[] && early.finalized == map[] && early.latest == 0
            && late.latest == 1 && 1 in late.finalized
  {
    hide Run, Step, Opened, FirstSigned, Sign;
    QuorumOfBoth(create, v, w);
    var ops, sign, finalize := Opened(create, v), AddSignature(1, w, [], 60, create.clock), Finalize(1, create.clock);
    OpenedIsWaiting(timeout, create, v);
    RunOne(timeout, ops, finalize);
    RunOne(timeout, ops + [finalize], sign);
    RunOne(timeout, ops + [finalize] + [sign], finalize);
    RunOne(timeout, ops, sign);
    RunOne(timeout, ops + [sign], finalize);
    var half := FirstSigned(create, v);
    FinalizeWaiting(timeout, create, half);
    NothingToSign(timeout, create, half, w);
    SignWaiting(timeout, create, half, w, 60);
    FinalizeWaiting(timeout, create, Sign(half, w, [], 60, create.clock.seconds));
  }

  lemma SmallestOf(keys: set<nat>) returns (k: nat)
    requires keys != {}
    ensures k in keys && forall j :: j in keys ==> k <= j
  {
    k :| k in keys;
    if keys != {k} {
      assert keys - {k} != {} by { assert keys == {k} + (keys - {k}); }
      var m := SmallestOf(keys - {k});
      assert forall j :: j in keys ==> j == k || j in keys - {k};
      k := if m < k then m else k;
    } else {
      assert forall j :: j in keys ==> j == k;
    }
  }

  /** Pruning retains exactly `keep` snapshots, or all if there are fewer, and drops only older ones. */
  lemma {:induction false} NewestCount(keys: set<nat>, keep: nat)
    ensures Newest(keys, keep) <= keys && |Newest(keys, keep)| == if |keys| <= keep then |keys| else keep
    ensures forall a, b :: a in keys - Newest(keys, keep) && b in Newest(keys, keep) ==> a < b
    decreases |keys|
  {
    if keys == {} {
      assert Newest(keys, keep) == {};
    } else {
      var k := SmallestOf(keys);
      var rest := keys - {k};
      NewestCount(rest, keep);
      forall j | j in rest ensures Newer(keys, j) == Newer(rest, j) {}
      assert Newer(keys, k) == rest;
      if |rest| < keep {
        assert Newest(keys, keep) == Newest(rest, keep) + {k};
      } else {
        assert Newest(keys, keep) == Newest(rest, keep);
      }
      forall a, b | a in keys - Newest(keys, keep) && b in Newest(keys, keep) ensures a < b {
        if b <= a && a != b { NewestIsUpwardClosed(keys, keep, b, a); }
      }
    }
  }

  lemma PruneStep(s: Manager, keep: nat)
    ensures Step(s, Prune(keep)) == s.(finalized := s.finalized - (s.finalized.Keys - Newest(s.finalized.Keys, keep)))
  {
  }

  lemma KeepAll(keys: set<nat>, keep: nat)
    requires |keys| <= keep
    ensures keys - Newest(keys, keep) == {}
  {
    NewestCount(keys, keep);
    SubsetBound(Newest(keys, keep), keys);
  }

  ghost predicate Ascending(s: seq<nat>) {
    forall i, j :: 0 <= i < j < |s| ==> s[i] < s[j]
  }

  lemma SortedKeys(keys: set<nat>, unsorted: seq<nat>)
    requires NoDup(unsorted) && Elements(unsorted) == keys
    ensures var sorted := Sort(unsorted, (a: nat, b: nat) => a <= b);
            Elements(sorted) == keys && |sorted| == |keys| && Ascending(sorted)
  {
    var le := (a: nat, b: nat) => a <= b;
    var sorted := Sort(unsorted, le);
    SortIsOrdered(unsorted, le);
    SameMultiset(unsorted, sorted);
    NoDupCount(sorted);
    forall i, j | 0 <= i < j < |sorted| ensures sorted[i] < sorted[j] { assert le(sorted[i], sorted[j]); }
  }

  /** Removing the first `|keys| - keep` of the ascending keys leaves the `keep` newest. */
  lemma OldestAreDropped(keys: set<nat>, sorted: seq<nat>, keep: nat)
    requires Elements(sorted) == keys && |keys| > keep && Ascending(sorted)
    ensures |sorted| == |keys| && Elements(sorted[..|keys| - keep]) == keys - Newest(keys, keep)
  {
    NoDupCount(sorted);
    forall i | 0 <= i < |sorted| ensures sorted[i] in Newest(keys, keep) <==> i >= |keys| - keep {
      assert Newer(keys, sorted[i]) == Elements(sorted[i + 1..]);
      NoDupCount(sorted[i + 1..]);
    }
    forall k ensures k in sorted[..|keys| - keep] <==> k in keys && k !in Newest(keys, keep) {
      if k in keys {
        var i :| 0 <= i < |sorted| && sorted[i] == k;
      }
    }
  }

  /** Sorting the keys and removing the first ones is what the operation's outcome says. */
  lemma PruneBySorting(s: Manager, unsorted: seq<nat>, keep: nat)
    requires NoDup(unsorted) && Elements(unsorted) == s.finalized.Keys && |s.finalized| > keep
    ensures var sorted := Sort(unsorted, (a: nat, b: nat) => a <= b);
            && |s.finalized| - keep <= |sorted|
            && Step(s, Prune(keep)) == s.(finalized := s.finalized - Elements(sorted[..|s.finalized| - keep]))
  {
    var sorted := Sort(unsorted, (a: nat, b: nat) => a <= b);
    assert |s.finalized.Keys| == |s.finalized|;
    SortedKeys(s.finalized.Keys, unsorted);
    OldestAreDropped(s.finalized.Keys, sorted, keep);
    PruneStep(s, keep);
  }

  lemma PruneNothing(s: Manager, keep: nat)
    requires |s.finalized| <= keep
    ensures Step(s, Prune(keep)) == s
  {
    assert |s.finalized.Keys| == |s.finalized|;
    KeepAll(s.finalized.Keys, keep);
    DropNone(s.finalized);
    PruneStep(s, keep);
  }

  // ---------- Agreement between nodes ----------

  /** Snapshots are opened with the common total and signatures weighted by the common stake table. */
  ghost predicate ReportsTable(op: Op, table: map<ValidatorID, nat>, total: nat) {
    && (op.Create? ==> op.totalStake == total)
    && (op.AddSignature? ==> op.validator in table && op.stakeWeight == table[op.validator])
  }

  ghost predicate AllUseTable(s: Manager, table: map<ValidatorID, nat>, total: nat) {
    && (forall k :: k in s.pending ==> UsesTable(s.pending[k].certificate, table, total))
    && (forall k :: k in s.finalized ==> UsesTable(s.finalized[k].certificate, table, total))
  }

  lemma StepUsesTable(s: Manager, op: Op, table: map<ValidatorID, nat>, total: nat)
    requires AllUseTable(s, table, total) && ReportsTable(op, table, total)
    ensures AllUseTable(Step(s, op), table, total)
  {
    hide Newest, TimedOut;
    match op
    case Create(_, _, _, _, _, _) =>
    case AddSignature(sequence, v, signature, weight, clock) =>
      if CanSign(s, op) {
        assert UsesTable(Sign(s.pending[sequence].certificate, v, signature, weight, clock.seconds), table, total);
      }
    case Finalize(sequence, clock) =>
      if sequence in s.pending {
        assert UsesTable(Finalized(s.pending[sequence].certificate, clock.seconds), table, total);
      }
    case ProcessTimeouts(_) =>
    case Prune(_) =>
  }

  lemma {:induction false} RunUsesTable(timeout: nat, ops: seq<Op>, table: map<ValidatorID, nat>, total: nat)
    requires forall op :: op in ops ==> ReportsTable(op, table, total)
    ensures AllUseTable(Run(timeout, ops), table, total)
  {
    if ops != [] {
      RunUsesTable(timeout, ops[..|ops| - 1], table, total);
      StepUsesTable(Run(timeout, ops[..|ops| - 1]), ops[|ops| - 1], table, total);
    }
  }

  /** No two nodes ever finalize different state roots for one sequence, given at most a third of Byzantine stake. */
  lemma {:induction false} NodesAgree(timeout: nat, ops: seq<Op>, timeout': nat, ops': seq<Op>,
                                      table: map<ValidatorID, nat>, total: nat, byzantine: set<ValidatorID>, k: nat)
    requires forall op :: op in ops ==> ReportsTable(op, table, total)
    requires forall op :: op in ops' ==> ReportsTable(op, table, total)
    requires Total(table) <= total && StakeOf(table, byzantine) <= MaxMaliciousStake(total)
    requires k in Run(timeout, ops).finalized && k in Run(timeout', ops').finalized
    requires HonestSignOnce(Run(timeout, ops).finalized[k].certificate, Run(timeout', ops').finalized[k].certificate,
                            byzantine)
    ensures Run(timeout, ops).finalized[k].snapshot.stateRoot == Run(timeout', ops').finalized[k].snapshot.stateRoot
  {
    RunKeepsInv(timeout, ops);
    RunKeepsInv(timeout', ops');
    RunUsesTable(timeout, ops, table, total);
    RunUsesTable(timeout', ops', table, total);
    CertificatesAgree(Run(timeout, ops).finalized[k].certificate, Run(timeout', ops').finalized[k].certificate,
                      table, total, byzantine);
  }

  /** An honest validator that signed for both nodes saw one snapshot, not only one state root. */
  ghost predicate HonestSawOnce(a: Final, b: Final, byzantine: set<ValidatorID>) {
    forall v :: v in a.certificate.signatures && v in b.certificate.signatures && v !in byzantine ==>
      a.snapshot == b.snapshot
  }

  /** Two nodes finalize one and the same snapshot exactly when the honest signers they share saw one. */
  lemma {:induction false} SnapshotsAgreeExactly(timeout: nat, ops: seq<Op>, timeout': nat, ops': seq<Op>,
                                                 table: map<ValidatorID, nat>, total: nat, byzantine: set<ValidatorID>,
                                                 k: nat)
    requires forall op :: op in ops ==> ReportsTable(op, table, total)
    requires forall op :: op in ops' ==> ReportsTable(op, table, total)
    requires Total(table) <= total && StakeOf(table, byzantine) <= MaxMaliciousStake(total)
    requires k in Run(timeout, ops).finalized && k in Run(timeout', ops').finalized
    ensures var a, b := Run(timeout, ops).finalized[k], Run(timeout', ops').finalized[k];
            a.snapshot == b.snapshot <==> HonestSawOnce(a, b, byzantine)
  {
    hide Run;
    RunKeepsInv(timeout, ops);
    RunKeepsInv(timeout', ops');
    RunUsesTable(timeout, ops, table, total);
    RunUsesTable(timeout', ops', table, total);
    var c, d := Run(timeout, ops).finalized[k].certificate, Run(timeout', ops').finalized[k].certificate;
    assert FinalIsCertified(k, Run(timeout, ops).finalized[k]);
    assert FinalIsCertified(k, Run(timeout', ops').finalized[k]);
    WeightIsSignersStake(c, table, total);
    WeightIsSignersStake(d, table, total);
    var v := QuorumsShareHonest(table, total, c.signatures.Keys, d.signatures.Keys, byzantine);
  }

  /** A single staker signs and the first snapshot becomes final. */
  function Alone(create: Op, v: ValidatorID): seq<Op>
    requires create.Create?
  {
    [create, AddSignature(1, v, [], 1, create.clock), Finalize(1, create.clock)]
  }

  lemma AloneFinalizes(timeout: nat, create: Op, v: ValidatorID)
    requires create.Create? && create.totalStake == 1
    ensures var s := Run(timeout, Alone(create, v));
            && 1 in s.finalized && s.finalized[1].snapshot == NewSnapshot(0, map[], create)
            && s.finalized[1].certificate.digest == create.stateRoot
  {
    hide Run, Step, Sign, Waiting, Blank, NewSnapshot;
    var sign, finalize := AddSignature(1, v, [], 1, create.clock), Finalize(1, create.clock);
    assert [create] + [sign] + [finalize] == Alone(create, v);
    CreateIsWaiting(timeout, create);
    RunOne(timeout, [create], sign);
    RunOne(timeout, [create] + [sign], finalize);
    SignWaiting(timeout, create, Blank(create), v, 1);
    QuorumOfOne(create, v);
    FinalizeWaiting(timeout, create, Sign(Blank(create), v, [], 1, create.clock.seconds));
  }

  lemma QuorumOfOne(create: Op, v: ValidatorID)
    requires create.Create? && create.totalStake == 1
    ensures var signed := Sign(Blank(create), v, [], 1, create.clock.seconds);
            signed.hasQuorum && signed.digest == create.stateRoot
  {
  }

  /**
   * The certificate covers the state root only: two nodes finalize different snapshots for one sequence although
   * nobody is Byzantine and nobody signs two roots.
   */
  lemma OneRootTwoSnapshots(timeout: nat, create: Op, other: Op, v: ValidatorID)
    requires create.Create? && other.Create? && create.totalStake == 1 && other.totalStake == 1
    requires create.stateRoot == other.stateRoot
    requires create.digest != other.digest && create.transactions != other.transactions
    ensures var s, t := Run(timeout, Alone(create, v)), Run(timeout, Alone(other, v));
            && 1 in s.finalized && 1 in t.finalized
            && HonestSignOnce(s.finalized[1].certificate, t.finalized[1].certificate, {})
            && s.finalized[1].snapshot.digest != t.finalized[1].snapshot.digest
            && s.finalized[1].snapshot.transactions != t.finalized[1].snapshot.transactions
  {
    hide Run;
    AloneFinalizes(timeout, create, v);
    AloneFinalizes(timeout, other, v);
  }
}
