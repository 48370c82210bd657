/** What a snapshot is made of: the transactions of the certified batches, in consensus order, up to a limit. */
module Traversal {
  import opened Wrappers
  import opened Collections
  import opened Sorting
  import opened ByteStrings
  import opened FlowGraphSpec
  import opened ConsensusOrder
  import opened FlowGraphHistory
  import FlowGraphs

  function TransactionsOf(batches: seq<Batch>): seq<Bytes> {
    if batches == [] then []
    else TransactionsOf(batches[..|batches| - 1]) + batches[|batches| - 1].transactions
  }

  function DigestsOf(digestOf: Bytes -> Bytes, transactions: seq<Bytes>): (digests: seq<Bytes>)
    ensures |digests| == |transactions|
    ensures forall i :: 0 <= i < |digests| ==> digests[i] == digestOf(transactions[i])
  {
    seq(|transactions|, i requires 0 <= i < |transactions| => digestOf(transactions[i]))
  }

  function Truncated(s: seq<Bytes>, limit: nat): seq<Bytes> {
    if |s| > limit then s[..limit] else s
  }

  predicate Certified(g: Graph, b: Batch) {
    IsCertified(g, b) && b == g.vertices[b.id].batch
  }

  /** Batches contribute their transactions in the order of the list. */
  lemma {:induction false} TransactionsInOrder(first: seq<Batch>, b: Batch, rest: seq<Batch>)
    ensures TransactionsOf(first + [b] + rest) == TransactionsOf(first) + b.transactions + TransactionsOf(rest)
    decreases |rest|
  {
    if rest == [] {
      assert first + [b] + rest == first + [b] && (first + [b])[..|first|] == first;
    } else {
      var n := |rest| - 1;
      TransactionsInOrder(first, b, rest[..n]);
      var all := first + [b] + rest;
      assert all[..|all| - 1] == first + [b] + rest[..n];
    }
  }

  /** Exactly the certified live batches, in strictly increasing byte order of their ids. */
  ghost predicate ListsCertified(g: Graph, batches: seq<Batch>) {
    Increasing(batches) && forall b :: b in batches <==> Certified(g, b)
  }

  /** Everything there is to gather, before the list is cut. */
  ghost predicate GathersAll(g: Graph, transactions: seq<Bytes>) {
    exists batches :: ListsCertified(g, batches) && transactions == TransactionsOf(batches)
  }

  ghost predicate Gathers(g: Graph, limit: nat, transactions: seq<Bytes>) {
    exists all :: GathersAll(g, all) && transactions == Truncated(all, limit)
  }

  lemma SameIds(g: Graph, a: seq<Batch>, b: seq<Batch>, id: BatchID)
    requires ListsCertified(g, a) && ListsCertified(g, b) && id in IdsOf(a)
    ensures id in IdsOf(b)
  {
    hide Increasing;
    var i :| 0 <= i < |a| && IdsOf(a)[i] == id;
    assert a[i] in a;
    assert a[i] in b;
    var j :| 0 <= j < |b| && b[j] == a[i];
    assert IdsOf(b)[j] == id;
  }

  lemma IncreasingIds(s: seq<Batch>)
    requires Increasing(s)
    ensures Ordered(IdsOf(s), LexLe) && NoDup(IdsOf(s))
  {
    LexIsTotalOrder();
  }

  lemma CertifiedListUnique(g: Graph, a: seq<Batch>, b: seq<Batch>)
    requires ListsCertified(g, a) && ListsCertified(g, b)
    ensures a == b
  {
    hide Ordered, NoDup, Increasing;
    IncreasingIds(a);
    IncreasingIds(b);
    forall id ensures id in IdsOf(a) <==> id in IdsOf(b) {
      if id in IdsOf(a) { SameIds(g, a, b, id); }
      if id in IdsOf(b) { SameIds(g, b, a, id); }
    }
    assert Elements(IdsOf(a)) == Elements(IdsOf(b));
    LexIsTotalOrder();
    OrderedListingUnique(IdsOf(a), IdsOf(b), LexLe);
    forall i | 0 <= i < |a| ensures a[i] == b[i] {
      assert a[i] in a && b[i] in b;
      assert IdsOf(a)[i] == IdsOf(b)[i];
    }
  }

  lemma SameCertifiedSameAll(g: Graph, h: Graph, s: seq<Bytes>, t: seq<Bytes>)
    requires GathersAll(g, s) && GathersAll(h, t)
    requires forall b :: Certified(g, b) <==> Certified(h, b)
    ensures s == t
  {
    hide Increasing, Certified;
    var a :| ListsCertified(g, a) && s == TransactionsOf(a);
    var b :| ListsCertified(h, b) && t == TransactionsOf(b);
    CertifiedListUnique(g, a, b);
  }

  /** Two nodes whose certified batches are the same propose the same transactions, whatever else they hold. */
  lemma NodesGatherTheSame(g: Graph, h: Graph, limit: nat, s: seq<Bytes>, t: seq<Bytes>)
    requires Gathers(g, limit, s) && Gathers(h, limit, t)
    requires forall b :: Certified(g, b) <==> Certified(h, b)
    ensures s == t
  {
    hide GathersAll, Certified;
    var all :| GathersAll(g, all) && s == Truncated(all, limit);
    var all' :| GathersAll(h, all') && t == Truncated(all', limit);
    SameCertifiedSameAll(g, h, all, all');
  }

  // ---------- How long a transaction is gathered ----------

  lemma {:induction false} TransactionsFrom(batches: seq<Batch>, t: Bytes)
    ensures t in TransactionsOf(batches) <==> exists b :: b in batches && t in b.transactions
  {
    if batches != [] {
      var n := |batches| - 1;
      TransactionsFrom(batches[..n], t);
      assert batches == batches[..n] + [batches[n]];
      if b :| b in batches && t in b.transactions {
        assert b in batches[..n] || b == batches[n];
      }
    }
  }

  lemma GathersExactly(g: Graph, all: seq<Bytes>, t: Bytes)
    requires GathersAll(g, all)
    ensures t in all <==> exists b :: Certified(g, b) && t in b.transactions
  {
    hide Increasing, Certified;
    var batches :| ListsCertified(g, batches) && all == TransactionsOf(batches);
    TransactionsFrom(batches, t);
    if b :| Certified(g, b) && t in b.transactions { assert b in batches; }
  }

  /** Operation `k` inserted a batch with `t` that is still live, and an operation since has certified it. */
  ghost predicate Carries(ops: seq<Op>, k: nat, t: Bytes) {
    && k < |ops| && ops[k].Add? && t in ops[k].batch.transactions
    && InsertedAt(ops, ops[k].batch.id, k) && CertifiedSince(ops, ops[k].batch.id, k)
  }

  lemma CarrierIsCertified(ops: seq<Op>, k: nat, t: Bytes)
    requires Carries(ops, k, t)
    ensures Certified(Run(ops), ops[k].batch)
  {
    hide InsertedAt, CertifiedSince, Run;
    ReadyExactly(ops, ops[k].batch.id, k);
    CertifiedExactly(ops, ops[k].batch.id, k);
  }

  lemma CertifiedIsCarrier(ops: seq<Op>, b: Batch, t: Bytes) returns (k: nat)
    requires Certified(Run(ops), b) && t in b.transactions
    ensures Carries(ops, k, t)
  {
    hide InsertedAt, CertifiedSince, Run;
    k := LatestInsertion(ops, b.id);
    ReadyExactly(ops, b.id, k);
    CertifiedExactly(ops, b.id, k);
    InsertionIndex(ops, b.id, k);
  }

  lemma InsertionIndex(ops: seq<Op>, id: BatchID, k: nat)
    requires InsertedAt(ops, id, k)
    ensures k < |ops|
  {
  }

  /**
   * Over every run a transaction is gathered exactly while some batch with it is live and has been certified since it
   * was inserted. Nothing else ends it: not finalizing the batch, and not having gathered it before.
   */
  lemma GatheredExactlyWhileLive(ops: seq<Op>, all: seq<Bytes>, t: Bytes)
    requires GathersAll(Run(ops), all)
    ensures t in all <==> exists k :: Carries(ops, k, t)
  {
    hide GathersAll, Carries, Run, Certified;
    GathersExactly(Run(ops), all, t);
    if b :| Certified(Run(ops), b) && t in b.transactions {
      var k := CertifiedIsCarrier(ops, b, t);
    }
    if k :| Carries(ops, k, t) {
      CarrierIsCertified(ops, k, t);
      CarriesIt(ops, k, t);
    }
  }

  lemma CarriesIt(ops: seq<Op>, k: nat, t: Bytes)
    requires Carries(ops, k, t)
    ensures k < |ops| && ops[k].Add? && t in ops[k].batch.transactions
  {
  }

  const TRANSACTION: Bytes := [7]
  const BATCH := Batch([1], [], [TRANSACTION])
  const CERTIFICATE := FlowGraphSpec.Certificate(1, 0)

  /** A finalized batch is gathered a second time. */
  lemma FinalizedBatchIsGatheredAgain(now: nat, limit: nat)
    requires limit > 0
    ensures var ops := [Add(BATCH, true, now), Certify(BATCH.id, CERTIFICATE)];
            && Gathers(Run(ops), limit, [TRANSACTION])
            && Gathers(Run(ops + [Finalize(BATCH.id)]), limit, [TRANSACTION])
  {
    var ops := [Add(BATCH, true, now), Certify(BATCH.id, CERTIFICATE)];
    var v := NewVertex(BATCH, now);
    var one := Graph(map[BATCH.id := v], {BATCH.id}, {BATCH.id});
    var certified := v.(certificate := Some(CERTIFICATE));
    assert ops[..1] == [Add(BATCH, true, now)] && ops[..1][..0] == [];
    assert Run(ops[..1]) == Added(EMPTY, BATCH, now);
    assert VerticesAfter(EMPTY, BATCH, now, []) == map[BATCH.id := v];
    assert Run(ops[..1]) == one;
    assert Run(ops) == one.(vertices := map[BATCH.id := certified]);
    assert (ops + [Finalize(BATCH.id)])[..2] == ops;
    assert Run(ops + [Finalize(BATCH.id)]) == one.(vertices := map[BATCH.id := certified.(finalized := true)]);
    GathersOne(Run(ops), limit);
    GathersOne(Run(ops + [Finalize(BATCH.id)]), limit);
  }

  lemma GathersOne(g: Graph, limit: nat)
    requires limit > 0 && g.vertices.Keys == {BATCH.id}
    requires g.vertices[BATCH.id].batch == BATCH && g.vertices[BATCH.id].certificate.Some?
    ensures Gathers(g, limit, [TRANSACTION])
  {
    assert ListsCertified(g, [BATCH]);
    assert TransactionsOf([BATCH]) == [TRANSACTION];
    assert GathersAll(g, [TRANSACTION]);
  }

  lemma TransactionsOneMore(batches: seq<Batch>, i: nat)
    requires i < |batches|
    ensures TransactionsOf(batches[..i + 1]) == TransactionsOf(batches[..i]) + batches[i].transactions
  {
    assert batches[..i + 1][..i] == batches[..i];
  }

  /** All transactions of the certified batches are collected, then the list is cut at the limit. */
  method GatherTransactions(graph: FlowGraphs.FlowGraph, limit: nat)
    returns (r: Result<seq<Bytes>, FlowGraphs.Error>)
    requires graph.Valid()
    ensures r.Ok? <==> Sortable(graph.State())
    ensures r.Ok? ==> Gathers(graph.State(), limit, r.value)
  {
    hide Sortable, Increasing, Inv;
    var certified := graph.GetCertifiedBatches();
    if certified.Err? { return Err(certified.error); }
    var batches := certified.value;
    assert ListsCertified(graph.State(), batches);
    var transactions: seq<Bytes> := [];
    var i := 0;
    while i < |batches|
      invariant i <= |batches| && transactions == TransactionsOf(batches[..i])
    {
      TransactionsOneMore(batches, i);
      transactions := transactions + batches[i].transactions;
      i := i + 1;
    }
    TakeAll(batches);
    assert GathersAll(graph.State(), transactions);
    if |transactions| > limit { transactions := transactions[..limit]; }
    r := Ok(transactions);
  }
}
