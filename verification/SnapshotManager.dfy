/** The mutable snapshot manager; its maps own their certificates, so an entry is updated by replacing it. */
module SnapshotManagers {
  import opened Wrappers
  import opened Collections
  import opened Sorting
  import opened ByteStrings
  import opened Quorum
  import opened AppendOnlyChain
  import C = Certificates
  import opened SnapshotSpec

  datatype Error = TooManyPending | UnknownSnapshot | Expired | NoQuorum | InvalidCertificate(error: C.Error)

  class SnapshotManager {
    var latestSequence: nat
    var pendingSnapshots: map<nat, Pending>
    var finalizedSnapshots: map<nat, Final>
    const finalizationTimeout: nat

    ghost function State(): Manager
      reads this
    {
      Manager(latestSequence, pendingSnapshots, finalizedSnapshots, finalizationTimeout)
    }

    ghost predicate Valid()
      reads this
    {
      Inv(State())
    }

    constructor (timeout: nat)
      ensures Valid() && State() == NewManager(timeout)
    {
      latestSequence, pendingSnapshots, finalizedSnapshots := 0, map[], map[];
      finalizationTimeout := timeout;
    }

    method CreateSnapshot(stateRoot: Digest, transactions: seq<Digest>, cycle: nat, totalStake: nat, digest: Digest,
                          clock: Clock) returns (r: Result<Snapshot, Error>)
      requires Valid()
      modifies this`pendingSnapshots
      ensures Valid()
      ensures State() == Step(old(State()), Create(stateRoot, transactions, cycle, totalStake, digest, clock))
      ensures r.Ok? && latestSequence + 1 in pendingSnapshots
      ensures r.value == pendingSnapshots[latestSequence + 1].snapshot
    {
      hide Inv;
      StepKeepsInv(State(), Create(stateRoot, transactions, cycle, totalStake, digest, clock));
      InvBoundsPending(State());
      if |pendingSnapshots| >= MAX_PENDING { return Err(TooManyPending); }
      var sequence := latestSequence + 1;
      var previous := if sequence > 1 && sequence - 1 in finalizedSnapshots
                      then finalizedSnapshots[sequence - 1].snapshot.digest else ZeroDigest();
      var snapshot := Snapshot(sequence, clock.millis, previous, stateRoot, transactions, cycle, digest);
      var certificate := C.NewCert(sequence, stateRoot, totalStake, clock.seconds);
      pendingSnapshots := pendingSnapshots[sequence :=
        Pending(snapshot, certificate, clock.instant, finalizationTimeout)];
      r := Ok(snapshot);
    }

    method AddSignature(sequence: nat, validator: ValidatorID, signature: Bytes, stakeWeight: nat, clock: Clock)
      returns (r: Result<bool, Error>)
      requires Valid()
      modifies this`pendingSnapshots
      ensures Valid()
      ensures State() == Step(old(State()),
                              SnapshotSpec.AddSignature(sequence, validator, signature, stakeWeight, clock))
      ensures r == if sequence !in old(pendingSnapshots) then Err(UnknownSnapshot)
                   else if clock.instant > old(pendingSnapshots)[sequence].createdAt +
                                           old(pendingSnapshots)[sequence].timeout then Err(Expired)
                   else if stakeWeight == 0 then Err(InvalidCertificate(C.ZeroStake))
                   else Ok(validator !in old(pendingSnapshots)[sequence].certificate.signatures)
    {
      hide Inv;
      StepKeepsInv(State(), SnapshotSpec.AddSignature(sequence, validator, signature, stakeWeight, clock));
      if sequence !in pendingSnapshots { return Err(UnknownSnapshot); }
      var p := pendingSnapshots[sequence];
      if p.IsTimedOut(clock.instant) { return Err(Expired); }
      var signed := C.Sign(p.certificate, validator, signature, stakeWeight, clock.seconds);
      pendingSnapshots := pendingSnapshots[sequence := p.(certificate := signed)];
      if stakeWeight == 0 { return Err(InvalidCertificate(C.ZeroStake)); }
      r := Ok(validator !in p.certificate.signatures);
    }

    method FinalizeSnapshot(sequence: nat, clock: Clock) returns (r: Result<C.Cert, Error>)
      requires Valid()
      modifies this
      ensures Valid() && State() == Step(old(State()), Finalize(sequence, clock))
      ensures r.Ok? <==> sequence in old(pendingSnapshots) && old(pendingSnapshots)[sequence].certificate.hasQuorum
      ensures r.Ok? ==> latestSequence == old(latestSequence) + 1 == sequence && sequence in finalizedSnapshots &&
                        r.value == finalizedSnapshots[sequence].certificate && C.Verdict(r.value).Ok?
    {
      hide Inv;
      StepKeepsInv(State(), Finalize(sequence, clock));
      LatestMovesByOne(State(), Finalize(sequence, clock));
      if sequence !in pendingSnapshots { return Err(UnknownSnapshot); }
      var p := pendingSnapshots[sequence];
      pendingSnapshots := pendingSnapshots - {sequence};
      if !p.certificate.hasQuorum { return Err(NoQuorum); }
      var certificate := C.Finalized(p.certificate, clock.seconds);
      finalizedSnapshots := finalizedSnapshots[sequence := Final(p.snapshot, certificate)];
      latestSequence := sequence;
      FinalCertificate(State(), sequence);
      r := Ok(certificate);
    }

    /** The expired sequences, in whatever order the map yields them. */
    method ProcessTimeouts(clock: Clock) returns (timedOut: seq<nat>)
      requires Valid()
      modifies this`pendingSnapshots
      ensures Valid() && State() == Step(old(State()), SnapshotSpec.ProcessTimeouts(clock))
      ensures NoDup(timedOut)
      ensures forall k :: k in timedOut <==>
                && k in old(pendingSnapshots)
                && clock.instant > old(pendingSnapshots)[k].createdAt + old(pendingSnapshots)[k].timeout
    {
      hide Inv;
      ghost var s := State();
      StepKeepsInv(s, SnapshotSpec.ProcessTimeouts(clock));
      var sequences: seq<nat> := [];
      var todo := pendingSnapshots.Keys;
      while todo != {}
        invariant todo <= pendingSnapshots.Keys && NoDup(sequences)
        invariant forall k :: k in sequences <==> k in TimedOut(s, clock.instant) && k !in todo
      {
        var sequence :| sequence in todo;
        todo := todo - {sequence};
        if pendingSnapshots[sequence].IsTimedOut(clock.instant) { sequences := sequences + [sequence]; }
      }
      timedOut := [];
      var i := 0;
      while i < |sequences|
        invariant i <= |sequences| && timedOut == sequences[..i]
        invariant pendingSnapshots == s.pending - Elements(sequences[..i])
      {
        TakeOneMore(sequences, i);
        ElementsAppend(sequences[..i], sequences[i]);
        DropOneMore(s.pending, Elements(sequences[..i]), sequences[i]);
        assert sequences[i] !in Elements(sequences[..i]);
        if sequences[i] in pendingSnapshots {
          pendingSnapshots := pendingSnapshots - {sequences[i]};
          timedOut := timedOut + [sequences[i]];
        }
        i := i + 1;
      }
      TakeAll(sequences);
      assert Elements(sequences) == TimedOut(s, clock.instant);
    }

    method PruneOldSnapshots(keep: nat)
      requires Valid()
      modifies this`finalizedSnapshots
      ensures Valid() && State() == Step(old(State()), Prune(keep))
    {
      hide Inv, Step, Sort, Elements, NoDup;
      ghost var s := State();
      StepKeepsInv(s, Prune(keep));
      if |finalizedSnapshots| <= keep {
        PruneNothing(s, keep);
        return;
      }
      var toRemove := |finalizedSnapshots| - keep;
      var unsorted := Listing(finalizedSnapshots.Keys);
      PruneBySorting(s, unsorted, keep);
      var sequences := Sort(unsorted, (a: nat, b: nat) => a <= b);
      Discard(sequences[..toRemove]);
    }

    method Discard(sequences: seq<nat>)
      modifies this`finalizedSnapshots
      ensures finalizedSnapshots == old(finalizedSnapshots) - Elements(sequences)
    {
      ghost var all := finalizedSnapshots;
      DropNone(all);
      NoElements(sequences[..0]);
      var i := 0;
      while i < |sequences|
        invariant i <= |sequences|
        invariant finalizedSnapshots == all - Elements(sequences[..i])
      {
        TakeOneMore(sequences, i);
        ElementsAppend(sequences[..i], sequences[i]);
        DropOneMore(all, Elements(sequences[..i]), sequences[i]);
        finalizedSnapshots := finalizedSnapshots - {sequences[i]};
        i := i + 1;
      }
      TakeAll(sequences);
    }
  }

  /** `keys().copied().collect()`: the keys in an arbitrary order. */
  method Listing<K(==)>(keys: set<K>) returns (s: seq<K>)
    ensures NoDup(s) && Elements(s) == keys
  {
    s := [];
    var todo := keys;
    while todo != {}
      invariant todo <= keys && NoDup(s) && Elements(s) == keys - todo
    {
      var k :| k in todo;
      todo := todo - {k};
      ElementsAppend(s, k);
      assert k !in Elements(s);
      s := s + [k];
    }
  }
}
