/** The flow graph as a value: its vertices, its root and tip sets, and the effect of every operation. */
module FlowGraphSpec {
  import opened Wrappers
  import opened Collections
  import opened ByteStrings

  type BatchID = Bytes

  datatype Batch = Batch(id: BatchID, parents: seq<BatchID>, transactions: seq<Bytes>)

  datatype Certificate = Certificate(stakeWeight: nat, timestamp: nat)

  datatype Vertex = Vertex(
    batch: Batch,
    certificate: Option<Certificate>,
    parents: seq<BatchID>,
    children: seq<BatchID>,
    addedAt: nat,
    finalized: bool)
  {
    function AddChild(child: BatchID): Vertex {
      if child in children then this else this.(children := children + [child])
    }
  }

  function NewVertex(batch: Batch, now: nat): Vertex {
    Vertex(batch, None, batch.parents, [], now, false)
  }

  datatype Graph = Graph(vertices: map<BatchID, Vertex>, roots: set<BatchID>, tips: set<BatchID>)

  const EMPTY := Graph(map[], {}, {})

  // ---------- Operations ----------

  datatype Op =
    | Add(batch: Batch, wellFormed: bool, now: nat)
    | Certify(id: BatchID, certificate: Certificate)
    | Finalize(id: BatchID)
    | Prune(retention: nat, now: nat)
    | Clear

  predicate Accepts(g: Graph, b: Batch, wellFormed: bool) {
    b.id !in g.vertices && wellFormed
  }

  /** The vertex stored under `id` once `b` is inserted and listed as a child by `listers`. */
  function VertexAfter(g: Graph, b: Batch, now: nat, listers: seq<BatchID>, id: BatchID): Vertex
    requires id in g.vertices || id == b.id
  {
    var v := if id == b.id then NewVertex(b, now) else g.vertices[id];
    if id in listers then v.AddChild(b.id) else v
  }

  function VerticesAfter(g: Graph, b: Batch, now: nat, listers: seq<BatchID>): map<BatchID, Vertex> {
    map id | id in g.vertices.Keys + {b.id} :: VertexAfter(g, b, now, listers, id)
  }

  function TipsAfter(g: Graph, b: Batch, listers: seq<BatchID>): set<BatchID> {
    set t | t in g.tips && !(t in listers && t in g.vertices.Keys + {b.id})
  }

  function Added(g: Graph, b: Batch, now: nat): Graph {
    Graph(VerticesAfter(g, b, now, b.parents),
          if b.parents == [] then g.roots + {b.id} else g.roots,
          TipsAfter(g, b, b.parents) + {b.id})
  }

  /** An `Instant` difference saturates at zero. */
  predicate IsStale(v: Vertex, retention: nat, now: nat) {
    v.finalized && (if now < v.addedAt then 0 else now - v.addedAt) > retention
  }

  function Stale(g: Graph, retention: nat, now: nat): set<BatchID> {
    set id | id in g.vertices && IsStale(g.vertices[id], retention, now)
  }

  function Without(g: Graph, dead: set<BatchID>): Graph {
    Graph(g.vertices - dead, g.roots - dead, g.tips - dead)
  }

  function Step(g: Graph, op: Op): Graph {
    match op
    case Add(b, wellFormed, now) => if Accepts(g, b, wellFormed) then Added(g, b, now) else g
    case Certify(id, certificate) =>
      if id in g.vertices
      then g.(vertices := g.vertices[id := g.vertices[id].(certificate := Some(certificate))])
      else g
    case Finalize(id) =>
      if id in g.vertices then g.(vertices := g.vertices[id := g.vertices[id].(finalized := true)]) else g
    case Prune(retention, now) => Without(g, Stale(g, retention, now))
    case Clear => EMPTY
  }

  function Run(ops: seq<Op>): Graph {
    if ops == [] then EMPTY else Step(Run(ops[..|ops| - 1]), ops[|ops| - 1])
  }

  lemma RunOne(ops: seq<Op>, op: Op)
    ensures Run(ops + [op]) == Step(Run(ops), op)
  {
    assert (ops + [op])[..|ops|] == ops;
  }

  /** Linking the batch to one more of its parents; a parent that is not live is skipped. */
  lemma LinkOneMore(g: Graph, b: Batch, now: nat, linked: seq<BatchID>, p: BatchID)
    ensures var vs := VerticesAfter(g, b, now, linked);
            VerticesAfter(g, b, now, linked + [p]) == if p in vs then vs[p := vs[p].AddChild(b.id)] else vs
    ensures TipsAfter(g, b, linked + [p]) ==
            if p in VerticesAfter(g, b, now, linked) then TipsAfter(g, b, linked) - {p} else TipsAfter(g, b, linked)
  {
    var vs := VerticesAfter(g, b, now, linked);
    var vs' := VerticesAfter(g, b, now, linked + [p]);
    forall id | id in vs ensures vs'[id] == if id == p then vs[p].AddChild(b.id) else vs[id] {
      assert id in linked + [p] <==> id in linked || id == p;
    }
  }

  lemma PruneStep(g: Graph, retention: nat, now: nat)
    ensures Step(g, Prune(retention, now)) == Without(g, Stale(g, retention, now))
  {
  }

  lemma StaleIsLive(g: Graph, retention: nat, now: nat)
    ensures Stale(g, retention, now) - g.vertices.Keys == {}
  {
  }

  /** One step of the scan for stale vertices. */
  lemma ScanOneMore(g: Graph, retention: nat, now: nat, found: seq<BatchID>, todo: set<BatchID>, id: BatchID)
    requires id in todo && todo <= g.vertices.Keys && Elements(found) == Stale(g, retention, now) - todo
    ensures id !in found
    ensures Elements(if IsStale(g.vertices[id], retention, now) then found + [id] else found) ==
            Stale(g, retention, now) - (todo - {id})
  {
    assert id !in Elements(found);
    ElementsAppend(found, id);
    if IsStale(g.vertices[id], retention, now) {
      assert Stale(g, retention, now) - (todo - {id}) == Stale(g, retention, now) - todo + {id};
    } else {
      assert Stale(g, retention, now) - (todo - {id}) == Stale(g, retention, now) - todo;
    }
  }

  lemma WithoutNone(g: Graph)
    ensures Without(g, {}) == g
  {
    assert g.vertices - {} == g.vertices;
  }

  lemma WithoutOneMore(g: Graph, dead: set<BatchID>, id: BatchID)
    ensures var rest := Without(g, dead);
            Without(g, dead + {id}) == Graph(rest.vertices - {id}, rest.roots - {id}, rest.tips - {id})
  {
    assert g.vertices - (dead + {id}) == g.vertices - dead - {id};
    assert g.roots - (dead + {id}) == g.roots - dead - {id};
    assert g.tips - (dead + {id}) == g.tips - dead - {id};
  }

  // ---------- What every reachable graph satisfies ----------

  /** Batch ids are content hashes: an id stands for one batch only. */
  ghost predicate ContentAddressed(op: Op, content: BatchID -> Batch) {
    op.Add? ==> op.batch == content(op.batch.id)
  }

  /** Both vertices are live and `p` lists `c` as its child. */
  ghost predicate Links(g: Graph, p: BatchID, c: BatchID) {
    p in g.vertices && c in g.vertices && c in g.vertices[p].children
  }

  ghost predicate WellKeyed(g: Graph, content: BatchID -> Batch) {
    forall id :: id in g.vertices ==>
      && g.vertices[id].batch == content(id)
      && g.vertices[id].batch.id == id
      && g.vertices[id].parents == content(id).parents
  }

  /** Children are listed once, and a listed batch (live or pruned) names its lister as a parent. */
  ghost predicate ChildrenSound(g: Graph, content: BatchID -> Batch) {
    forall p :: p in g.vertices ==>
      && NoDup(g.vertices[p].children)
      && forall c :: c in g.vertices[p].children ==> p in content(c).parents
  }

  ghost predicate RootsExact(g: Graph) {
    forall id :: id in g.roots <==> id in g.vertices && g.vertices[id].parents == []
  }

  ghost predicate HasNoOtherChild(v: Vertex, id: BatchID) {
    forall c :: c in v.children ==> c == id
  }

  ghost predicate TipsExact(g: Graph) {
    forall id :: id in g.tips <==> id in g.vertices && HasNoOtherChild(g.vertices[id], id)
  }

  ghost predicate RankedBy(g: Graph, rank: map<BatchID, nat>) {
    && g.vertices.Keys <= rank.Keys
    && forall p, c :: Links(g, p, c) && p != c ==> rank[p] < rank[c]
  }

  ghost predicate Ranked(g: Graph) {
    exists rank :: RankedBy(g, rank)
  }

  ghost predicate Inv(g: Graph, content: BatchID -> Batch) {
    WellKeyed(g, content) && ChildrenSound(g, content) && RootsExact(g) && TipsExact(g) && Ranked(g)
  }

  lemma {:induction false} FreshRank(rank: map<BatchID, nat>, keys: set<BatchID>) returns (n: nat)
    ensures forall id :: id in keys && id in rank ==> rank[id] < n
  {
    if keys == {} {
      n := 0;
    } else {
      var k :| k in keys;
      var m := FreshRank(rank, keys - {k});
      n := if k in rank && rank[k] >= m then rank[k] + 1 else m;
    }
  }

  /** A new batch ranks above everything live: links only ever run from earlier to later insertion. */
  lemma AddKeepsRanked(g: Graph, b: Batch, now: nat, content: BatchID -> Batch)
    requires Inv(g, content) && b.id !in g.vertices
    ensures Ranked(Added(g, b, now))
  {
    var rank :| RankedBy(g, rank);
    var n := FreshRank(rank, g.vertices.Keys);
    var g' := Added(g, b, now);
    var rank' := rank[b.id := n];
    forall p, c | Links(g', p, c) && p != c ensures rank'[p] < rank'[c] {
      if c != b.id { assert Links(g, p, c); }
    }
    assert RankedBy(g', rank');
  }

  lemma AddKeepsChildrenSound(g: Graph, b: Batch, now: nat, content: BatchID -> Batch)
    requires ChildrenSound(g, content) && b.id !in g.vertices && b == content(b.id)
    ensures ChildrenSound(Added(g, b, now), content)
  {
    var g' := Added(g, b, now);
    forall p | p in g'.vertices
      ensures NoDup(g'.vertices[p].children)
      ensures forall c :: c in g'.vertices[p].children ==> p in content(c).parents
    {
      if p in g.vertices { assert NoDup(g.vertices[p].children); }
    }
  }

  lemma AddKeepsTipsExact(g: Graph, b: Batch, now: nat)
    requires TipsExact(g) && b.id !in g.vertices
    ensures TipsExact(Added(g, b, now))
  {
    var g' := Added(g, b, now);
    forall id | id in g'.vertices ensures id in g'.tips <==> HasNoOtherChild(g'.vertices[id], id) {
      if id != b.id && id in b.parents { assert b.id in g'.vertices[id].children; }
    }
  }

  lemma AddKeepsKeys(g: Graph, b: Batch, now: nat, content: BatchID -> Batch)
    requires WellKeyed(g, content) && RootsExact(g) && b.id !in g.vertices && b == content(b.id)
    ensures WellKeyed(Added(g, b, now), content) && RootsExact(Added(g, b, now))
  {
  }

  lemma AddKeepsInv(g: Graph, b: Batch, now: nat, content: BatchID -> Batch)
    requires Inv(g, content) && b.id !in g.vertices && b == content(b.id)
    ensures Inv(Added(g, b, now), content)
  {
    AddKeepsRanked(g, b, now, content);
    AddKeepsChildrenSound(g, b, now, content);
    AddKeepsTipsExact(g, b, now);
    AddKeepsKeys(g, b, now, content);
  }

  lemma RemovalKeepsInv(g: Graph, dead: set<BatchID>, content: BatchID -> Batch)
    requires Inv(g, content)
    ensures Inv(Without(g, dead), content)
  {
    var rank :| RankedBy(g, rank);
    var g' := Without(g, dead);
    forall p, c | Links(g', p, c) && p != c ensures rank[p] < rank[c] { assert Links(g, p, c); }
    assert RankedBy(g', rank);
  }

  lemma RelabelKeepsRanked(g: Graph, id: BatchID, v: Vertex)
    requires Ranked(g) && id in g.vertices && v.children == g.vertices[id].children
    ensures Ranked(g.(vertices := g.vertices[id := v]))
  {
    var rank :| RankedBy(g, rank);
    var g' := g.(vertices := g.vertices[id := v]);
    forall p, c | Links(g', p, c) && p != c ensures rank[p] < rank[c] { assert Links(g, p, c); }
    assert RankedBy(g', rank);
  }

  lemma RelabelKeepsKeys(g: Graph, id: BatchID, v: Vertex, content: BatchID -> Batch)
    requires WellKeyed(g, content) && RootsExact(g) && TipsExact(g) && id in g.vertices
    requires v == g.vertices[id].(certificate := v.certificate, finalized := v.finalized)
    ensures var g' := g.(vertices := g.vertices[id := v]);
            WellKeyed(g', content) && RootsExact(g') && TipsExact(g')
  {
  }

  lemma RelabelKeepsChildren(g: Graph, id: BatchID, v: Vertex, content: BatchID -> Batch)
    requires ChildrenSound(g, content) && id in g.vertices && v.children == g.vertices[id].children
    ensures ChildrenSound(g.(vertices := g.vertices[id := v]), content)
  {
    var g' := g.(vertices := g.vertices[id := v]);
    forall p | p in g'.vertices
      ensures NoDup(g'.vertices[p].children) && forall c :: c in g'.vertices[p].children ==> p in content(c).parents
    {
      assert g'.vertices[p].children == g.vertices[p].children;
    }
  }

  /** Marking a vertex certified or finalized touches no edge. */
  lemma {:induction false} RelabelKeepsInv(g: Graph, id: BatchID, v: Vertex, content: BatchID -> Batch)
    requires Inv(g, content) && id in g.vertices
    requires v == g.vertices[id].(certificate := v.certificate, finalized := v.finalized)
    ensures Inv(g.(vertices := g.vertices[id := v]), content)
  {
    RelabelKeepsRanked(g, id, v);
    RelabelKeepsKeys(g, id, v, content);
    RelabelKeepsChildren(g, id, v, content);
  }

  lemma {:induction false} StepKeepsInv(g: Graph, op: Op, content: BatchID -> Batch)
    requires Inv(g, content) && ContentAddressed(op, content)
    ensures Inv(Step(g, op), content)
  {
    match op
    case Add(b, wellFormed, now) => if Accepts(g, b, wellFormed) { AddKeepsInv(g, b, now, content); }
    case Certify(id, c) =>
      if id in g.vertices { RelabelKeepsInv(g, id, g.vertices[id].(certificate := Some(c)), content); }
    case Finalize(id) =>
      if id in g.vertices { RelabelKeepsInv(g, id, g.vertices[id].(finalized := true), content); }
    case Prune(retention, now) => RemovalKeepsInv(g, Stale(g, retention, now), content);
    case Clear => EmptyInv(content);
  }

  lemma EmptyInv(content: BatchID -> Batch)
    ensures Inv(EMPTY, content)
  {
    assert RankedBy(EMPTY, map[]);
  }

  /** Every run of adds, certifications, finalizations, prunings and clears keeps the graph consistent. */
  lemma {:induction false} RunKeepsInv(ops: seq<Op>, content: BatchID -> Batch)
    requires forall op :: op in ops ==> ContentAddressed(op, content)
    ensures Inv(Run(ops), content)
  {
    if ops == [] {
      EmptyInv(content);
    } else {
      RunKeepsInv(ops[..|ops| - 1], content);
      StepKeepsInv(Run(ops[..|ops| - 1]), ops[|ops| - 1], content);
    }
  }

  /** When no batch names itself, the tips are the live batches without a child. */
  lemma TipsAreChildless(ops: seq<Op>, content: BatchID -> Batch)
    requires forall op :: op in ops ==> ContentAddressed(op, content)
    requires forall id :: id !in content(id).parents
    ensures var g := Run(ops);
            forall id :: id in g.tips <==> id in g.vertices && g.vertices[id].children == []
  {
    var g := Run(ops);
    RunKeepsInv(ops, content);
    forall id | id in g.vertices ensures HasNoOtherChild(g.vertices[id], id) <==> g.vertices[id].children == [] {
      if g.vertices[id].children != [] {
        assert g.vertices[id].children[0] in g.vertices[id].children;
      }
    }
  }

  // ---------- Linked edges form no cycle ----------

  ghost predicate LinkedPath(g: Graph, path: seq<BatchID>) {
    forall i :: 0 <= i < |path| - 1 ==> Links(g, path[i], path[i + 1])
  }

  ghost predicate Constant(path: seq<BatchID>) {
    forall i :: 0 <= i < |path| ==> path[i] == path[0]
  }

  lemma {:induction false} RankGrowsAlong(g: Graph, rank: map<BatchID, nat>, path: seq<BatchID>)
    requires RankedBy(g, rank) && LinkedPath(g, path) && |path| >= 2
    ensures path[0] in rank && path[|path| - 1] in rank
    ensures rank[path[0]] < rank[path[|path| - 1]] || Constant(path)
  {
    var n := |path|;
    assert Links(g, path[n - 2], path[n - 2 + 1]);
    if n > 2 {
      var init := path[..n - 1];
      RankGrowsAlong(g, rank, init);
      if Constant(init) { assert init[n - 2] == init[0]; }
    }
  }

  /** Child links lead back to their start only on the spot, from a batch that names itself as a parent. */
  lemma NoLinkedCycle(ops: seq<Op>, content: BatchID -> Batch, path: seq<BatchID>)
    requires forall op :: op in ops ==> ContentAddressed(op, content)
    requires LinkedPath(Run(ops), path) && |path| >= 2 && path[0] == path[|path| - 1]
    ensures Constant(path) && path[0] in content(path[0]).parents
  {
    RunKeepsInv(ops, content);
    var rank :| RankedBy(Run(ops), rank);
    RankGrowsAlong(Run(ops), rank, path);
    assert Links(Run(ops), path[0], path[1]);
  }

  // ---------- When the graph can be sorted ----------

  /** Every parent is live, listed once, another batch, and lists this one as its child. */
  ghost predicate Ready(g: Graph, id: BatchID)
    requires id in g.vertices
  {
    && NoDup(g.vertices[id].parents)
    && forall p :: p in g.vertices[id].parents ==> p != id && Links(g, p, id)
  }

  ghost predicate Sortable(g: Graph) {
    forall id :: id in g.vertices ==> Ready(g, id)
  }

  /** The batch names distinct parents, all of them live when it arrives. */
  ghost predicate ArrivesInOrder(g: Graph, b: Batch) {
    NoDup(b.parents) && forall p :: p in b.parents ==> p in g.vertices
  }

  lemma AddKeepsReadiness(g: Graph, b: Batch, now: nat, id: BatchID)
    requires b.id !in g.vertices && id in g.vertices
    ensures Ready(Added(g, b, now), id) <==> Ready(g, id)
  {
    var g' := Added(g, b, now);
    assert g'.vertices[id].parents == g.vertices[id].parents;
    assert g'.vertices[b.id].children == [] || g'.vertices[b.id].children == [b.id];
    forall p ensures Links(g', p, id) <==> Links(g, p, id) {
      if p in g.vertices && id !in g.vertices[p].children { assert id !in g'.vertices[p].children; }
    }
  }

  lemma NewcomerReadiness(g: Graph, b: Batch, now: nat)
    requires b.id !in g.vertices
    ensures Ready(Added(g, b, now), b.id) <==> ArrivesInOrder(g, b)
  {
    var g' := Added(g, b, now);
    assert g'.vertices[b.id].parents == b.parents;
    if Ready(g', b.id) {
      forall p | p in b.parents ensures p in g.vertices { assert Links(g', p, b.id); }
    }
  }

  /** A batch whose parent arrives late leaves the graph unsortable, and no later batch repairs it. */
  lemma AddSortable(g: Graph, b: Batch, now: nat)
    requires b.id !in g.vertices
    ensures Sortable(Added(g, b, now)) <==> Sortable(g) && ArrivesInOrder(g, b)
  {
    var g' := Added(g, b, now);
    forall id | id in g.vertices ensures Ready(g', id) <==> Ready(g, id) { AddKeepsReadiness(g, b, now, id); }
    NewcomerReadiness(g, b, now);
    assert g'.vertices.Keys == g.vertices.Keys + {b.id};
    if Sortable(g') { assert b.id in g'.vertices; }
  }

  /** A survivor is ready after a removal exactly when it was before and none of its parents went. */
  lemma RemovalReadiness(g: Graph, dead: set<BatchID>, id: BatchID)
    requires id in g.vertices && id !in dead
    ensures Ready(Without(g, dead), id) <==> Ready(g, id) && forall p :: p in g.vertices[id].parents ==> p !in dead
  {
    var g' := Without(g, dead);
    forall p ensures Links(g', p, id) <==> Links(g, p, id) && p !in dead {}
    if Ready(g', id) {
      forall p | p in g.vertices[id].parents ensures p != id && Links(g, p, id) && p !in dead {
        assert Links(g', p, id);
      }
    }
  }

  /** The graph is sortable after a removal exactly when every survivor was ready and loses no parent. */
  lemma RemovalSortable(g: Graph, dead: set<BatchID>)
    ensures Sortable(Without(g, dead)) <==>
            forall id :: id in g.vertices && id !in dead ==>
              Ready(g, id) && forall p :: p in g.vertices[id].parents ==> p !in dead
  {
    var g' := Without(g, dead);
    assert g'.vertices.Keys == g.vertices.Keys - dead;
    forall id | id in g.vertices && id !in dead
      ensures Ready(g', id) <==> Ready(g, id) && forall p :: p in g.vertices[id].parents ==> p !in dead
    {
      RemovalReadiness(g, dead, id);
    }
    if Sortable(g') {
      forall id | id in g.vertices && id !in dead ensures Ready(g', id) { assert id in g'.vertices; }
    }
  }

  lemma RelabelReadiness(g: Graph, id: BatchID, v: Vertex, x: BatchID)
    requires id in g.vertices && x in g.vertices
    requires v == g.vertices[id].(certificate := v.certificate, finalized := v.finalized)
    ensures Ready(g.(vertices := g.vertices[id := v]), x) <==> Ready(g, x)
  {
    var g' := g.(vertices := g.vertices[id := v]);
    forall p ensures Links(g, p, x) <==> Links(g', p, x) {}
  }
}
