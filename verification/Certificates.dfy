/** Snapshot certificates: collecting stake-weighted signatures until two thirds of the stake has signed. */
module Certificates {
  import opened Wrappers
  import opened Collections
  import opened ByteStrings
  import opened Quorum

  datatype Error = ZeroStake | NoQuorum | NotFinalized | NoSignatures

  datatype SignatureInfo = SignatureInfo(validator: ValidatorID, signature: Bytes, stakeWeight: nat, signedAt: nat)

  /** The fields of a certificate, as a value. */
  datatype Cert = Cert(
    sequence: nat,
    digest: Bytes,
    signatures: map<ValidatorID, SignatureInfo>,
    stakeWeight: nat,
    totalStake: nat,
    createdAt: nat,
    finalizedAt: Option<nat>,
    hasQuorum: bool)

  function NewCert(sequence: nat, digest: Bytes, totalStake: nat, now: nat): Cert {
    Cert(sequence, digest, map[], 0, totalStake, now, None, false)
  }

  predicate CheckQuorum(c: Cert) {
    c.totalStake != 0 && HasQuorum(c.stakeWeight, c.totalStake)
  }

  /** A validator that already signed is left as it was, whatever weight it now claims. */
  function Sign(c: Cert, v: ValidatorID, signature: Bytes, weight: nat, now: nat): Cert {
    if weight == 0 || v in c.signatures then c
    else
      var signed := c.(signatures := c.signatures[v := SignatureInfo(v, signature, weight, now)],
                       stakeWeight := c.stakeWeight + weight);
      signed.(hasQuorum := CheckQuorum(signed))
  }

  function Finalized(c: Cert, now: nat): Cert {
    if c.hasQuorum then c.(finalizedAt := Some(now)) else c
  }

  function Verdict(c: Cert): Result<(), Error> {
    if !c.hasQuorum then Err(NoQuorum)
    else if c.finalizedAt.None? then Err(NotFinalized)
    else if c.signatures == map[] then Err(NoSignatures)
    else Ok(())
  }

  // ---------- What every reachable certificate satisfies ----------

  ghost function Weights(c: Cert): map<ValidatorID, nat> {
    map v | v in c.signatures :: c.signatures[v].stakeWeight
  }

  ghost predicate CertInv(c: Cert) {
    && c.stakeWeight == Total(Weights(c))
    && (forall v :: v in c.signatures ==> c.signatures[v].validator == v && c.signatures[v].stakeWeight > 0)
    && (c.hasQuorum <==> c.totalStake > 0 && HasQuorum(c.stakeWeight, c.totalStake))
    && (c.finalizedAt.Some? ==> c.hasQuorum)
  }

  lemma NewCertInv(sequence: nat, digest: Bytes, totalStake: nat, now: nat)
    ensures CertInv(NewCert(sequence, digest, totalStake, now))
  {
  }

  /** The weight is the sum over distinct signers, and a quorum once reached stays. */
  lemma SignKeepsInv(c: Cert, v: ValidatorID, signature: Bytes, weight: nat, now: nat)
    requires CertInv(c)
    ensures var c' := Sign(c, v, signature, weight, now);
            CertInv(c') && (c.hasQuorum ==> c'.hasQuorum) && c'.finalizedAt == c.finalizedAt
  {
    var c' := Sign(c, v, signature, weight, now);
    if c' != c {
      TotalUpdate(Weights(c), v, weight);
      assert Weights(c') == Weights(c)[v := weight];
    }
  }

  /** A finalized certificate verifies; in particular somebody signed it. */
  lemma FinalizedVerifies(c: Cert)
    requires CertInv(c)
    ensures Verdict(c).Ok? <==> c.finalizedAt.Some?
  {
    assert c.signatures == map[] ==> Weights(c) == map[];
  }

  // ---------- Arrival order ----------

  datatype Arrival = Arrival(validator: ValidatorID, signature: Bytes, stakeWeight: nat, now: nat)

  function SignAll(c: Cert, arrivals: seq<Arrival>): Cert {
    if arrivals == [] then c
    else
      var n := |arrivals| - 1;
      var a := arrivals[n];
      Sign(SignAll(c, arrivals[..n]), a.validator, a.signature, a.stakeWeight, a.now)
  }

  /** Everybody reports the stake the table gives them. */
  ghost predicate FromTable(arrivals: seq<Arrival>, table: map<ValidatorID, nat>) {
    forall a :: a in arrivals ==> a.validator in table && a.stakeWeight == table[a.validator]
  }

  ghost function Stakers(arrivals: seq<Arrival>): set<ValidatorID> {
    set a | a in arrivals && a.stakeWeight > 0 :: a.validator
  }

  ghost function TableWeights(who: set<ValidatorID>, table: map<ValidatorID, nat>): map<ValidatorID, nat> {
    map v | v in who && v in table :: table[v]
  }

  lemma StakersAppend(init: seq<Arrival>, a: Arrival)
    ensures Stakers(init + [a]) == Stakers(init) + if a.stakeWeight > 0 then {a.validator} else {}
  {
  }

  lemma SignWeights(c: Cert, a: Arrival, who: set<ValidatorID>, table: map<ValidatorID, nat>)
    requires a.validator in table && a.stakeWeight == table[a.validator]
    requires Weights(c) == TableWeights(who, table)
    ensures var c' := Sign(c, a.validator, a.signature, a.stakeWeight, a.now);
            Weights(c') == TableWeights(who + if a.stakeWeight > 0 then {a.validator} else {}, table)
  {
    var c' := Sign(c, a.validator, a.signature, a.stakeWeight, a.now);
    assert c.signatures.Keys == Weights(c).Keys;
    if c' != c {
      assert Weights(c') == Weights(c)[a.validator := a.stakeWeight];
    }
  }

  lemma {:induction false} SignedByStakers(c: Cert, arrivals: seq<Arrival>, table: map<ValidatorID, nat>)
    requires CertInv(c) && c.signatures == map[] && FromTable(arrivals, table)
    ensures var r := SignAll(c, arrivals);
            CertInv(r) && r.totalStake == c.totalStake && Weights(r) == TableWeights(Stakers(arrivals), table)
  {
    if arrivals != [] {
      var n := |arrivals| - 1;
      var init, a := arrivals[..n], arrivals[n];
      SignedByStakers(c, init, table);
      assert arrivals == init + [a];
      hide CertInv, Weights, TableWeights, Stakers;
      SignKeepsInv(SignAll(c, init), a.validator, a.signature, a.stakeWeight, a.now);
      StakersAppend(init, a);
      SignWeights(SignAll(c, init), a, Stakers(init), table);
    }
  }

  /** Weight and quorum depend on who signed, not on the order in which the signatures arrived. */
  lemma ArrivalOrderIrrelevant(c: Cert, one: seq<Arrival>, other: seq<Arrival>, table: map<ValidatorID, nat>)
    requires CertInv(c) && c.signatures == map[]
    requires FromTable(one, table) && FromTable(other, table) && Stakers(one) == Stakers(other)
    ensures var r, s := SignAll(c, one), SignAll(c, other);
            r.stakeWeight == s.stakeWeight && r.hasQuorum == s.hasQuorum && r.signatures.Keys == s.signatures.Keys
  {
    SignedByStakers(c, one, table);
    SignedByStakers(c, other, table);
    assert SignAll(c, one).signatures.Keys == Weights(SignAll(c, one)).Keys;
    assert SignAll(c, other).signatures.Keys == Weights(SignAll(c, other)).Keys;
  }

  // ---------- Agreement ----------

  /** Every signature in the certificate carries its signer's stake from the common table. */
  ghost predicate UsesTable(c: Cert, table: map<ValidatorID, nat>, total: nat) {
    && c.totalStake == total
    && forall v :: v in c.signatures ==> v in table && c.signatures[v].stakeWeight == table[v]
  }

  lemma {:induction false} SameTotal(m: map<ValidatorID, nat>, n: map<ValidatorID, nat>)
    requires m.Keys <= n.Keys
    requires forall v :: v in n ==> n[v] == if v in m then m[v] else 0
    ensures Total(m) == Total(n)
    decreases |n|
  {
    if n == map[] {
      assert m == map[];
    } else {
      var v :| v in n;
      TotalRemove(n, v);
      if v in m {
        TotalRemove(m, v);
        SameTotal(m - {v}, n - {v});
      } else {
        SameTotal(m, n - {v});
      }
    }
  }

  lemma WeightIsSignersStake(c: Cert, table: map<ValidatorID, nat>, total: nat)
    requires CertInv(c) && UsesTable(c, table, total)
    ensures c.stakeWeight == StakeOf(table, c.signatures.Keys)
  {
    SameTotal(Weights(c), Shares(table, c.signatures.Keys));
  }

  /** An honest validator never signs two different digests. */
  ghost predicate HonestSignOnce(c: Cert, d: Cert, byzantine: set<ValidatorID>) {
    forall v :: v in c.signatures && v in d.signatures && v !in byzantine ==> c.digest == d.digest
  }

  /** With at most a third of the stake Byzantine, two quorum certificates carry the same digest. */
  lemma CertificatesAgree(c: Cert, d: Cert, table: map<ValidatorID, nat>, total: nat, byzantine: set<ValidatorID>)
    requires CertInv(c) && CertInv(d) && UsesTable(c, table, total) && UsesTable(d, table, total)
    requires Total(table) <= total && StakeOf(table, byzantine) <= MaxMaliciousStake(total)
    requires c.hasQuorum && d.hasQuorum && HonestSignOnce(c, d, byzantine)
    ensures c.digest == d.digest
  {
    WeightIsSignersStake(c, table, total);
    WeightIsSignersStake(d, table, total);
    var v := QuorumsShareHonest(table, total, c.signatures.Keys, d.signatures.Keys, byzantine);
  }

  // ---------- The mutable certificate ----------

  class SnapshotCertificate {
    var sequence: nat
    var digest: Bytes
    var signatures: map<ValidatorID, SignatureInfo>
    var stakeWeight: nat
    var totalStake: nat
    var createdAt: nat
    var finalizedAt: Option<nat>
    var hasQuorum: bool

    function Value(): Cert
      reads this
    {
      Cert(sequence, digest, signatures, stakeWeight, totalStake, createdAt, finalizedAt, hasQuorum)
    }

    ghost predicate Valid()
      reads this
    {
      CertInv(Value())
    }

    constructor (sequence: nat, digest: Bytes, totalStake: nat, now: nat)
      ensures Valid() && Value() == NewCert(sequence, digest, totalStake, now)
    {
      this.sequence, this.digest, this.totalStake, createdAt := sequence, digest, totalStake, now;
      signatures, stakeWeight, finalizedAt, hasQuorum := map[], 0, None, false;
    }

    /** `Ok(false)` means the validator had already signed. */
    method AddSignature(v: ValidatorID, signature: Bytes, weight: nat, now: nat) returns (r: Result<bool, Error>)
      requires Valid()
      modifies this
      ensures Valid() && Value() == Sign(old(Value()), v, signature, weight, now)
      ensures old(hasQuorum) ==> hasQuorum
      ensures r == if weight == 0 then Err(ZeroStake) else Ok(v !in old(signatures))
    {
      SignKeepsInv(Value(), v, signature, weight, now);
      if weight == 0 { return Err(ZeroStake); }
      if v in signatures { return Ok(false); }
      signatures := signatures[v := SignatureInfo(v, signature, weight, now)];
      stakeWeight := stakeWeight + weight;
      hasQuorum := CheckQuorum(Value());
      r := Ok(true);
    }

    method Finalize(now: nat) returns (r: Result<(), Error>)
      requires Valid()
      modifies this`finalizedAt
      ensures Valid() && Value() == Finalized(old(Value()), now)
      ensures r == if hasQuorum then Ok(()) else Err(NoQuorum)
    {
      if !hasQuorum { return Err(NoQuorum); }
      finalizedAt := Some(now);
      r := Ok(());
    }

    method Verify() returns (r: Result<(), Error>)
      requires Valid()
      ensures r.Ok? <==> finalizedAt.Some?
      ensures r == if !hasQuorum then Err(NoQuorum)
                   else if finalizedAt.None? then Err(NotFinalized)
                   else if signatures == map[] then Err(NoSignatures)
                   else Ok(())
    {
      FinalizedVerifies(Value());
      if !hasQuorum { return Err(NoQuorum); }
      if finalizedAt.None? { return Err(NotFinalized); }
      if signatures == map[] { return Err(NoSignatures); }
      r := Ok(());
    }
  }
}
