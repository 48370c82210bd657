/** The order in which consensus reads the batches of a flow graph. */
module ConsensusOrder {
  import opened Collections
  import opened Sorting
  import opened ByteStrings
  import opened FlowGraphSpec
  import opened KahnSort

  function IdsOf(s: seq<Batch>): (ids: seq<BatchID>)
    ensures |ids| == |s| && forall i :: 0 <= i < |s| ==> ids[i] == s[i].id
  {
    seq(|s|, i requires 0 <= i < |s| => s[i].id)
  }

  ghost predicate Increasing(s: seq<Batch>) {
    forall i, j :: 0 <= i < j < |s| ==> LexLess(s[i].id, s[j].id)
  }

  /** Exactly the live batches, in strictly increasing byte order of their ids. */
  ghost predicate ListsLive(g: Graph, s: seq<Batch>) {
    && Increasing(s)
    && (forall i :: 0 <= i < |s| ==> s[i].id in g.vertices && s[i] == g.vertices[s[i].id].batch)
    && (forall id :: id in g.vertices ==> exists i :: 0 <= i < |s| && s[i].id == id)
  }

  predicate IsCertified(g: Graph, b: Batch) {
    b.id in g.vertices && g.vertices[b.id].certificate.Some?
  }

  /** The iterator filter over the consensus order. */
  function CertifiedOnly(g: Graph, s: seq<Batch>): seq<Batch> {
    if s == [] then []
    else if IsCertified(g, s[0]) then [s[0]] + CertifiedOnly(g, s[1..])
    else CertifiedOnly(g, s[1..])
  }

  lemma ReachableIsKeyed(g: Graph, content: BatchID -> Batch)
    requires Inv(g, content)
    ensures WellKeyed(g, content)
  {
  }

  lemma SortedIds(g: Graph, s: seq<BatchID>)
    requires TopologicalOrder(g, s)
    ensures var ids := Sort(s, LexLe); Ordered(ids, LexLe) && NoDup(ids) && Elements(ids) == g.vertices.Keys
  {
    LexIsTotalOrder();
    SortIsOrdered(s, LexLe);
    SameMultiset(s, Sort(s, LexLe));
  }

  lemma BatchesOfIds(g: Graph, content: BatchID -> Batch, ids: seq<BatchID>, s: seq<Batch>)
    requires WellKeyed(g, content)
    requires Ordered(ids, LexLe) && NoDup(ids) && Elements(ids) == g.vertices.Keys && |s| == |ids|
    requires forall i :: 0 <= i < |ids| ==> ids[i] in g.vertices && s[i] == g.vertices[ids[i]].batch
    ensures ListsLive(g, s)
  {
    forall id | id in g.vertices ensures exists i :: 0 <= i < |s| && s[i].id == id {
      assert id in Elements(ids);
      var i :| 0 <= i < |ids| && ids[i] == id;
      assert s[i].id == id;
    }
  }

  /** The order depends on nothing but which batches are live. */
  lemma SameBatchesSameOrder(g: Graph, h: Graph, s: seq<Batch>, t: seq<Batch>)
    requires ListsLive(g, s) && ListsLive(h, t)
    requires g.vertices.Keys == h.vertices.Keys
    requires forall id :: id in g.vertices ==> g.vertices[id].batch == h.vertices[id].batch
    ensures s == t
  {
    LexIsTotalOrder();
    var ids, ids' := IdsOf(s), IdsOf(t);
    forall id ensures id in ids <==> id in ids' {
      assert id in ids <==> id in g.vertices;
      assert id in ids' <==> id in h.vertices;
    }
    assert Elements(ids) == Elements(ids');
    OrderedListingUnique(ids, ids', LexLe);
    forall i | 0 <= i < |s| ensures s[i] == t[i] {
      assert ids[i] == ids'[i];
    }
  }

  /** Two nodes holding the same batches agree on the order, however and in whatever order they received them. */
  lemma NodesAgreeOnOrder(ops: seq<Op>, ops': seq<Op>, content: BatchID -> Batch, s: seq<Batch>, t: seq<Batch>)
    requires forall op :: op in ops + ops' ==> ContentAddressed(op, content)
    requires Run(ops).vertices.Keys == Run(ops').vertices.Keys
    requires ListsLive(Run(ops), s) && ListsLive(Run(ops'), t)
    ensures s == t
  {
    forall op | op in ops ensures ContentAddressed(op, content) { assert op in ops + ops'; }
    forall op | op in ops' ensures ContentAddressed(op, content) { assert op in ops + ops'; }
    RunKeepsInv(ops, content);
    RunKeepsInv(ops', content);
    SameBatchesSameOrder(Run(ops), Run(ops'), s, t);
  }

  lemma {:induction false} FilterKeepsOrder(g: Graph, s: seq<Batch>)
    requires Increasing(s)
    ensures Increasing(CertifiedOnly(g, s))
    ensures forall b :: b in CertifiedOnly(g, s) <==> b in s && IsCertified(g, b)
  {
    if s != [] {
      var rest := CertifiedOnly(g, s[1..]);
      FilterKeepsOrder(g, s[1..]);
      forall k | 0 <= k < |rest| ensures LexLess(s[0].id, rest[k].id) {
        assert rest[k] in rest;
        assert rest[k] in s[1..];
      }
      assert s == [s[0]] + s[1..];
    }
  }

  /** The certified list is the increasing listing of exactly the certified live batches. */
  lemma CertifiedListExact(g: Graph, s: seq<Batch>)
    requires ListsLive(g, s)
    ensures Increasing(CertifiedOnly(g, s))
    ensures forall b :: b in CertifiedOnly(g, s) <==>
              b.id in g.vertices && b == g.vertices[b.id].batch && g.vertices[b.id].certificate.Some?
  {
    FilterKeepsOrder(g, s);
    forall b ensures b in s <==> b.id in g.vertices && b == g.vertices[b.id].batch {
      if b.id in g.vertices {
        var i :| 0 <= i < |s| && s[i].id == b.id;
      }
    }
  }

  ghost predicate ParentsFirst(g: Graph, s: seq<Batch>)
    requires ListsLive(g, s)
  {
    forall i, j :: 0 <= i < |s| && 0 <= j < |s| && s[i].id in g.vertices[s[j].id].parents ==> i < j
  }

  ghost predicate ParentsAreSmaller(g: Graph) {
    forall id, p :: id in g.vertices && p in g.vertices[id].parents ==> LexLess(p, id)
  }

  lemma SmallerWhenFirst(g: Graph, s: seq<Batch>, p: BatchID, id: BatchID)
    requires ListsLive(g, s) && ParentsFirst(g, s)
    requires p in g.vertices && id in g.vertices && p in g.vertices[id].parents
    ensures LexLess(p, id)
  {
    hide LexLess;
    var i :| 0 <= i < |s| && s[i].id == p;
    var j :| 0 <= j < |s| && s[j].id == id;
    assert i < j;
  }

  lemma FirstWhenSmaller(g: Graph, s: seq<Batch>, i: nat, j: nat)
    requires ListsLive(g, s) && ParentsAreSmaller(g)
    requires i < |s| && j < |s| && s[i].id in g.vertices[s[j].id].parents
    ensures i < j
  {
    assert LexLess(s[i].id, s[j].id);
    if j < i { LexTotal(s[i].id, s[j].id); }
  }

  lemma AllFirstWhenSmaller(g: Graph, s: seq<Batch>)
    requires ListsLive(g, s) && ParentsAreSmaller(g)
    ensures ParentsFirst(g, s)
  {
    hide LexLess;
    forall i, j | 0 <= i < |s| && 0 <= j < |s| && s[i].id in g.vertices[s[j].id].parents ensures i < j {
      FirstWhenSmaller(g, s, i, j);
    }
  }

  /** Re-sorting by bytes keeps parents first exactly when every parent's id is smaller than its child's. */
  lemma CausalExactlyWhenIdsAre(g: Graph, s: seq<Batch>)
    requires Sortable(g) && ListsLive(g, s)
    ensures ParentsFirst(g, s) <==> ParentsAreSmaller(g)
  {
    hide LexLess, ListsLive;
    if ParentsAreSmaller(g) { AllFirstWhenSmaller(g, s); }
    if ParentsFirst(g, s) {
      forall id, p | id in g.vertices && p in g.vertices[id].parents ensures LexLess(p, id) {
        assert Ready(g, id) && Links(g, p, id);
        SmallerWhenFirst(g, s, p, id);
      }
    }
  }
  const LARGE_PARENT := Batch([2], [], [])
  const SMALL_CHILD := Batch([1], [[2]], [])

  /** A parent with the larger id comes after its child in the consensus order. */
  lemma ChildCanComeFirst()
    ensures var g := Run([Add(LARGE_PARENT, true, 0), Add(SMALL_CHILD, true, 0)]);
            && Sortable(g) && ListsLive(g, [SMALL_CHILD, LARGE_PARENT]) && !ParentsFirst(g, [SMALL_CHILD, LARGE_PARENT])
  {
    hide Run, Sortable;
    ParentThenChild(LARGE_PARENT, SMALL_CHILD);
    var g := Pair(LARGE_PARENT, SMALL_CHILD);
    var order := [SMALL_CHILD, LARGE_PARENT];
    assert LexLess(order[0].id, order[1].id);
    assert g.vertices.Keys == {order[0].id, order[1].id};
    assert order[1].id in g.vertices[order[0].id].parents;
  }
}
