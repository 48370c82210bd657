/** How often a transaction is finalized: the flow graph's contents followed into Mercury's snapshots. */
module FinalizedTransactions {
  import opened Wrappers
  import opened ByteStrings
  import opened Traversal
  import G = FlowGraphSpec
  import M = MercurySpec

  /** The digests of what a graph with this history yields. */
  ghost predicate Yields(graph: seq<G.Op>, limit: nat, digestOf: Bytes -> Bytes, digests: seq<Bytes>) {
    exists transactions ::
      Gathers(G.Run(graph), limit, transactions) && digests == DigestsOf(digestOf, transactions)
  }

  /** Every creation proposes what the flow graph yields; `seen[c]` is the graph's history at step `c`. */
  ghost predicate Proposes(ops: seq<M.Op>, seen: seq<seq<G.Op>>, limit: nat, digestOf: Bytes -> Bytes) {
    && |seen| == |ops|
    && forall c :: 0 <= c < |ops| && ops[c].Create? ==> Yields(seen[c], limit, digestOf, ops[c].content.transactions)
  }

  /** More than `limit` transactions are gathered, and `t` is not among the first of them. */
  ghost predicate CutOff(g: G.Graph, limit: nat, t: Bytes) {
    exists all :: GathersAll(g, all) && |all| > limit && t !in all[..limit]
  }

  /** Some live batch with `t` has been certified since it was inserted, and `t` is not cut off. */
  ghost predicate Offers(graph: seq<G.Op>, limit: nat, t: Bytes) {
    (exists k :: Carries(graph, k, t)) && !CutOff(G.Run(graph), limit, t)
  }

  ghost predicate OffersDigest(graph: seq<G.Op>, limit: nat, digestOf: Bytes -> Bytes, d: Bytes) {
    exists t :: digestOf(t) == d && Offers(graph, limit, t)
  }

  lemma OfferedExactly(graph: seq<G.Op>, limit: nat, transactions: seq<Bytes>, t: Bytes)
    requires Gathers(G.Run(graph), limit, transactions)
    ensures t in transactions <==> Offers(graph, limit, t)
  {
    hide GathersAll, Carries, G.Run;
    var g := G.Run(graph);
    var all :| GathersAll(g, all) && transactions == Truncated(all, limit);
    GatheredExactlyWhileLive(graph, all, t);
    if other :| GathersAll(g, other) && |other| > limit && t !in other[..limit] {
      SameCertifiedSameAll(g, g, all, other);
    }
    if t in transactions { FromTruncated(all, limit, t); }
  }

  lemma FromTruncated(all: seq<Bytes>, limit: nat, t: Bytes)
    requires t in Truncated(all, limit)
    ensures t in all
  {
  }

  lemma DigestsHave(digestOf: Bytes -> Bytes, transactions: seq<Bytes>, d: Bytes)
    ensures d in DigestsOf(digestOf, transactions) <==> exists t :: t in transactions && digestOf(t) == d
  {
    var digests := DigestsOf(digestOf, transactions);
    if d in digests {
      var i :| 0 <= i < |digests| && digests[i] == d;
      assert transactions[i] in transactions;
    }
    if t :| t in transactions && digestOf(t) == d {
      var i :| 0 <= i < |transactions| && transactions[i] == t;
      assert digests[i] == d;
    }
  }

  lemma YieldsExactly(graph: seq<G.Op>, limit: nat, digestOf: Bytes -> Bytes, digests: seq<Bytes>, d: Bytes)
    requires Yields(graph, limit, digestOf, digests)
    ensures d in digests <==> OffersDigest(graph, limit, digestOf, d)
  {
    hide Gathers, Offers, DigestsOf;
    var transactions :| Gathers(G.Run(graph), limit, transactions) && digests == DigestsOf(digestOf, transactions);
    DigestsHave(digestOf, transactions, d);
    forall t ensures t in transactions <==> Offers(graph, limit, t) { OfferedExactly(graph, limit, transactions, t); }
  }

  /** A final snapshot has exactly the digests that the flow graph offered when the snapshot was created. */
  lemma FinalizedExactly(ops: seq<M.Op>, seen: seq<seq<G.Op>>, limit: nat, digestOf: Bytes -> Bytes, k: nat, d: Bytes)
    returns (c: nat)
    requires Proposes(ops, seen, limit, digestOf) && k in M.Run(ops).finalized
    ensures M.OpenedBy(ops, c, k, M.Run(ops).finalized[k])
    ensures d in M.Run(ops).finalized[k].transactions <==> OffersDigest(seen[c], limit, digestOf, d)
  {
    hide Yields, OffersDigest, M.Run;
    var f;
    c, f := M.FinalizedOpenedBy(ops, k);
    YieldsExactly(seen[c], limit, digestOf, ops[c].content.transactions, d);
  }

  /**
   * Two snapshots finalize one digest exactly when the flow graph offered it at the creation of both: it is finalized
   * once only if its batches were removed, or it was cut off, at one of the two.
   */
  lemma FinalizedTwiceExactly(ops: seq<M.Op>, seen: seq<seq<G.Op>>, limit: nat, digestOf: Bytes -> Bytes,
                              k: nat, k': nat, d: Bytes) returns (c: nat, c': nat)
    requires Proposes(ops, seen, limit, digestOf)
    requires k in M.Run(ops).finalized && k' in M.Run(ops).finalized && k < k'
    ensures M.OpenedBy(ops, c, k, M.Run(ops).finalized[k])
    ensures M.OpenedBy(ops, c', k', M.Run(ops).finalized[k'])
    ensures c < c' < |seen|
    ensures d in M.Run(ops).finalized[k].transactions && d in M.Run(ops).finalized[k'].transactions <==>
            OffersDigest(seen[c], limit, digestOf, d) && OffersDigest(seen[c'], limit, digestOf, d)
  {
    hide Yields, OffersDigest, M.Run;
    c := FinalizedExactly(ops, seen, limit, digestOf, k, d);
    c' := FinalizedExactly(ops, seen, limit, digestOf, k', d);
    M.OpenedInOrder(ops, c, k, c', k', M.Run(ops).finalized[k], M.Run(ops).finalized[k']);
  }

  // ---------- A transaction finalized twice ----------

  /** The only validator makes a snapshot final by creating it. */
  function Alone(content: M.Content, v: Bytes): M.Op {
    M.Create(content, true, Some(v), map[v := 1], 1)
  }

  lemma AloneFinalizes(s: M.State, content: M.Content, v: Bytes)
    requires M.Inv(s) && content.transactions != []
    ensures var t, k := M.Step(s, Alone(content, v)), s.current + 1;
            && t.current == k && k in t.finalized && t.finalized[k].transactions == content.transactions
            && forall j :: j in s.finalized ==> j in t.finalized && t.finalized[j] == s.finalized[j]
  {
    M.StepOpens(s, Alone(content, v));
  }

  /** On any node whose only validator it is, two snapshots of one graph in a row finalize the same transactions. */
  lemma RepeatedUnlessPruned(s: M.State, graph: seq<G.Op>, limit: nat, digestOf: Bytes -> Bytes, one: M.Content,
                             other: M.Content, v: Bytes)
    requires M.Inv(s) && one.transactions != []
    requires Yields(graph, limit, digestOf, one.transactions) && Yields(graph, limit, digestOf, other.transactions)
    ensures var t, k := M.Step(M.Step(s, Alone(one, v)), Alone(other, v)), s.current + 1;
            && k in t.finalized && k + 1 in t.finalized
            && t.finalized[k].transactions == t.finalized[k + 1].transactions == one.transactions
  {
    SameYield(graph, limit, digestOf, one.transactions, other.transactions);
    hide Yields, M.Step, M.Inv;
    M.StepKeepsInv(s, Alone(one, v));
    AloneFinalizes(s, one, v);
    AloneFinalizes(M.Step(s, Alone(one, v)), other, v);
  }

  lemma SameYield(graph: seq<G.Op>, limit: nat, digestOf: Bytes -> Bytes, a: seq<Bytes>, b: seq<Bytes>)
    requires Yields(graph, limit, digestOf, a) && Yields(graph, limit, digestOf, b)
    ensures a == b
  {
    hide Gathers, Certified, DigestsOf;
    var g := G.Run(graph);
    var s :| Gathers(g, limit, s) && a == DigestsOf(digestOf, s);
    var t :| Gathers(g, limit, t) && b == DigestsOf(digestOf, t);
    NodesGatherTheSame(g, g, limit, s, t);
  }

  /** One certified batch, marked finalized after the first snapshot, is finalized by the second as well. */
  lemma TransactionIsFinalizedTwice(now: nat, limit: nat, digestOf: Bytes -> Bytes, content: M.Content, v: Bytes)
    requires limit > 0 && content.transactions == [digestOf(TRANSACTION)]
    ensures var graph := [G.Add(BATCH, true, now), G.Certify(BATCH.id, CERTIFICATE)];
            var ops := [Alone(content, v), Alone(content, v)];
            var s := M.Run(ops);
            && Proposes(ops, [graph, graph + [G.Finalize(BATCH.id)]], limit, digestOf)
            && 1 in s.finalized && 2 in s.finalized
            && s.finalized[1].transactions == s.finalized[2].transactions == [digestOf(TRANSACTION)]
  {
    var graph := [G.Add(BATCH, true, now), G.Certify(BATCH.id, CERTIFICATE)];
    FinalizedBatchIsGatheredAgain(now, limit);
    assert DigestsOf(digestOf, [TRANSACTION]) == content.transactions;
    assert Yields(graph, limit, digestOf, content.transactions);
    assert Yields(graph + [G.Finalize(BATCH.id)], limit, digestOf, content.transactions);
    hide Yields, Gathers, M.Step, M.Inv;
    var op := Alone(content, v);
    assert [op, op][..1] == [op] && [op][..0] == [];
    M.RunKeepsInv([]);
    M.RunKeepsInv([op]);
    AloneFinalizes(M.EMPTY, content, v);
    AloneFinalizes(M.Run([op]), content, v);
  }
}
