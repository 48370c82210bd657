/** The mutable flow graph, its topological sort and the consensus order drawn from it. */
module FlowGraphs {
  import opened Wrappers
  import opened Collections
  import opened Sorting
  import opened ByteStrings
  import opened FlowGraphSpec
  import opened KahnSort
  import opened ConsensusOrder

  datatype Error = DuplicateBatch | MalformedBatch | BatchNotFound | CycleDetected

  class FlowGraph {
    var vertices: map<BatchID, Vertex>
    var roots: set<BatchID>
    var tips: set<BatchID>
    /** The batch each content-addressed id stands for. */
    ghost const content: BatchID -> Batch

    ghost function State(): Graph
      reads this
    {
      Graph(vertices, roots, tips)
    }

    ghost predicate Valid()
      reads this
    {
      Inv(State(), content)
    }

    constructor (ghost content: BatchID -> Batch)
      ensures Valid() && State() == EMPTY && this.content == content
    {
      vertices, roots, tips := map[], {}, {};
      this.content := content;
      new;
      EmptyInv(content);
    }

    /** `wellFormed` is the verdict of the batch's own validation. */
    method AddBatch(batch: Batch, wellFormed: bool, now: nat) returns (r: Result<(), Error>)
      requires Valid() && batch == content(batch.id)
      modifies this
      ensures Valid() && State() == Step(old(State()), Add(batch, wellFormed, now))
      ensures r == if batch.id in old(vertices) then Err(DuplicateBatch)
                   else if !wellFormed then Err(MalformedBatch) else Ok(())
    {
      ghost var g := State();
      if batch.id in vertices { return Err(DuplicateBatch); }
      if !wellFormed { return Err(MalformedBatch); }
      var id, parents := batch.id, batch.parents;
      vertices := vertices[id := NewVertex(batch, now)];
      var i := 0;
      while i < |parents|
        invariant i <= |parents| && roots == g.roots
        invariant vertices == VerticesAfter(g, batch, now, parents[..i])
        invariant tips == TipsAfter(g, batch, parents[..i])
      {
        var p := parents[i];
        TakeOneMore(parents, i);
        LinkOneMore(g, batch, now, parents[..i], p);
        if p in vertices {
          vertices := vertices[p := vertices[p].AddChild(id)];
          tips := tips - {p};
        }
        i := i + 1;
      }
      TakeAll(parents);
      if parents == [] { roots := roots + {id}; }
      tips := tips + {id};
      AddKeepsInv(g, batch, now, content);
      r := Ok(());
    }

    method SetCertificate(id: BatchID, certificate: Certificate) returns (r: Result<(), Error>)
      requires Valid()
      modifies this`vertices
      ensures Valid() && State() == Step(old(State()), Certify(id, certificate))
      ensures r == if id in old(vertices) then Ok(()) else Err(BatchNotFound)
    {
      StepKeepsInv(State(), Certify(id, certificate), content);
      if id !in vertices { return Err(BatchNotFound); }
      vertices := vertices[id := vertices[id].(certificate := Some(certificate))];
      r := Ok(());
    }

    method MarkFinalized(id: BatchID) returns (r: Result<(), Error>)
      requires Valid()
      modifies this`vertices
      ensures Valid() && State() == Step(old(State()), Finalize(id))
      ensures r == if id in old(vertices) then Ok(()) else Err(BatchNotFound)
    {
      StepKeepsInv(State(), Finalize(id), content);
      if id !in vertices { return Err(BatchNotFound); }
      vertices := vertices[id := vertices[id].(finalized := true)];
      r := Ok(());
    }

    method PruneOldBatches(retention: nat, now: nat) returns (count: nat)
      requires Valid()
      modifies this
      ensures Valid() && State() == Step(old(State()), Prune(retention, now))
      ensures count == |Stale(old(State()), retention, now)|
    {
      hide Inv, Stale, IsStale, Without, Step;
      ghost var g := State();
      StepKeepsInv(g, Prune(retention, now), content);
      PruneStep(g, retention, now);
      StaleIsLive(g, retention, now);
      var toRemove: seq<BatchID> := [];
      var todo := vertices.Keys;
      while todo != {}
        invariant State() == g && todo <= vertices.Keys
        invariant NoDup(toRemove) && Elements(toRemove) == Stale(g, retention, now) - todo
      {
        var id :| id in todo;
        ScanOneMore(g, retention, now, toRemove, todo, id);
        todo := todo - {id};
        if IsStale(vertices[id], retention, now) { toRemove := toRemove + [id]; }
      }
      NoDupCount(toRemove);
      assert Elements(toRemove) == Stale(g, retention, now);
      count := |toRemove|;
      Discard(toRemove);
    }

    method Discard(ids: seq<BatchID>)
      modifies this
      ensures State() == Without(old(State()), Elements(ids))
    {
      hide Without;
      ghost var g := State();
      WithoutNone(g);
      NoElements(ids[..0]);
      var i := 0;
      while i < |ids|
        invariant i <= |ids|
        invariant State() == Without(g, Elements(ids[..i]))
      {
        TakeOneMore(ids, i);
        ElementsAppend(ids[..i], ids[i]);
        WithoutOneMore(g, Elements(ids[..i]), ids[i]);
        vertices := vertices - {ids[i]};
        roots := roots - {ids[i]};
        tips := tips - {ids[i]};
        i := i + 1;
      }
      TakeAll(ids);
    }

    method Reset()
      modifies this
      ensures Valid() && State() == Step(old(State()), Clear)
    {
      vertices, roots, tips := map[], {}, {};
      EmptyInv(content);
    }

    /** Kahn's algorithm; the order in which the map yields its entries is arbitrary. */
    method TopologicalSort() returns (r: Result<seq<BatchID>, Error>)
      requires Valid()
      ensures r == Err(CycleDetected) || r.Ok?
      ensures r.Ok? <==> Sortable(State())
      ensures r.Ok? ==> TopologicalOrder(State(), r.value)
    {
      hide Inv, Sourced, Ranked, Progress, Counted, Sortable, TopologicalOrder;
      ghost var g := State();
      ReachableIsSourced(g, content);
      var result: seq<BatchID> := [];
      var inDegree: map<BatchID, nat> := map[];
      var queue: seq<BatchID> := [];
      var todo := vertices.Keys;
      while todo != {}
        invariant todo <= vertices.Keys && inDegree.Keys == vertices.Keys - todo
        invariant forall id :: id in inDegree ==> inDegree[id] == |vertices[id].parents|
        invariant NoDup(queue) && forall id :: id in queue <==> id in inDegree && vertices[id].parents == []
      {
        var id :| id in todo;
        todo := todo - {id};
        inDegree := inDegree[id := |vertices[id].parents|];
        if vertices[id].parents == [] { queue := queue + [id]; }
      }
      ghost var cur: BatchID := [];
      StartsCounted(g, inDegree, cur);
      StartsInProgress(g, queue, inDegree);
      assert Elements(result) == {};
      while queue != []
        invariant Counted(g, inDegree, Elements(result), cur, [])
        invariant Progress(g, result, queue, inDegree)
        decreases |vertices| - |result|
      {
        var id := queue[0];
        ghost var sorted := result;
        PopKeepsProgress(g, result, queue, inDegree);
        queue := queue[1..];
        result := result + [id];
        if id in vertices {
          var children := vertices[id].children;
          var i := 0;
          NewBatchWalk(g, inDegree, Elements(sorted), cur, id);
          while i < |children|
            invariant i <= |children|
            invariant Counted(g, inDegree, Elements(sorted), id, children[..i])
            invariant Progress(g, sorted + [id], queue, inDegree)
          {
            var child := children[i];
            TakeOneMore(children, i);
            FirstVisit(g, content, id, i);
            if child in inDegree {
              VisitChild(g, content, sorted, id, queue, inDegree, children[..i], child);
              inDegree := inDegree[child := inDegree[child] - 1];
              if inDegree[child] == 0 { queue := queue + [child]; }
            } else {
              SkipChild(g, sorted, id, inDegree, children[..i], child);
            }
            i := i + 1;
          }
          TakeAll(children);
          FinishBatch(g, inDegree, Elements(sorted), id, id);
          ElementsAppend(sorted, id);
          cur := id;
        }
        SortedIsBounded(g, result, queue, inDegree);
      }
      CountDecides(g, result, inDegree, cur);
      if |result| != |vertices| { return Err(CycleDetected); }
      r := Ok(result);
    }

    /** Batches in increasing byte order of their ids, whatever order the sort produced. */
    method GetConsensusOrder() returns (r: Result<seq<Batch>, Error>)
      requires Valid()
      ensures r == Err(CycleDetected) || r.Ok?
      ensures r.Ok? <==> Sortable(State())
      ensures r.Ok? ==> ListsLive(State(), r.value)
    {
      hide Inv, Sortable, TopologicalOrder, ListsLive, WellKeyed, Ordered, NoDup, Sort;
      ghost var g := State();
      var sorted := TopologicalSort();
      if sorted.Err? { return Err(sorted.error); }
      var ids := Sort(sorted.value, LexLe);
      SortedIds(g, sorted.value);
      ReachableIsKeyed(g, content);
      var batches: seq<Batch> := [];
      var i := 0;
      while i < |ids|
        invariant i == |batches| <= |ids|
        invariant forall j :: 0 <= j < i ==> ids[j] in g.vertices && batches[j] == g.vertices[ids[j]].batch
      {
        assert ids[i] in Elements(ids);
        if ids[i] in vertices { batches := batches + [vertices[ids[i]].batch]; }
        i := i + 1;
      }
      BatchesOfIds(g, content, ids, batches);
      r := Ok(batches);
    }

    method GetCertifiedBatches() returns (r: Result<seq<Batch>, Error>)
      requires Valid()
      ensures r == Err(CycleDetected) || r.Ok?
      ensures r.Ok? <==> Sortable(State())
      ensures r.Ok? ==> Increasing(r.value)
      ensures r.Ok? ==> forall b :: b in r.value <==>
                b.id in vertices && b == vertices[b.id].batch && vertices[b.id].certificate.Some?
    {
      hide Inv, Sortable, ListsLive, Increasing;
      var all := GetConsensusOrder();
      if all.Err? { return Err(all.error); }
      CertifiedListExact(State(), all.value);
      r := Ok(CertifiedOnly(Graph(vertices, roots, tips), all.value));
    }
  }
}
