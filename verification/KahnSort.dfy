/** Why Kahn's in-degree counters decide, on a reachable graph, whether it can be sorted. */
module KahnSort {
  import opened Collections
  import opened FlowGraphSpec

  /** Every live batch once, each strictly after all of its parents. */
  ghost predicate TopologicalOrder(g: Graph, s: seq<BatchID>) {
    && NoDup(s)
    && Elements(s) == g.vertices.Keys
    && forall i, p :: 0 <= i < |s| && p in g.vertices[s[i]].parents ==> p in s[..i]
  }

  /** The processed batches that list `id` as a child; `cur` counts once it has walked past `id`. */
  ghost function Credit(g: Graph, done: set<BatchID>, cur: BatchID, walked: seq<BatchID>, id: BatchID): set<BatchID> {
    (set p | p in done && Links(g, p, id)) + (if id in walked then {cur} else {})
  }

  /** The counter of `id` is the number of its parent entries not yet credited. */
  ghost predicate Exact(g: Graph, degree: nat, done: set<BatchID>, cur: BatchID, walked: seq<BatchID>, id: BatchID)
    requires id in g.vertices
  {
    degree + |Credit(g, done, cur, walked, id)| == |g.vertices[id].parents|
  }

  ghost predicate Counted(g: Graph, degree: map<BatchID, nat>, done: set<BatchID>, cur: BatchID, walked: seq<BatchID>) {
    && degree.Keys == g.vertices.Keys
    && forall id :: id in g.vertices ==> Exact(g, degree[id], done, cur, walked, id)
  }

  ghost predicate Sourced(g: Graph, content: BatchID -> Batch) {
    WellKeyed(g, content) && ChildrenSound(g, content)
  }

  /** Batches leave the queue only after their parents; a counter is zero exactly for queued or sorted batches. */
  ghost predicate Progress(g: Graph, result: seq<BatchID>, queue: seq<BatchID>, degree: map<BatchID, nat>) {
    && degree.Keys == g.vertices.Keys
    && NoDup(result + queue)
    && (forall id :: id in result + queue <==> id in degree && degree[id] == 0)
    && (forall i, p :: 0 <= i < |result| && p in g.vertices[result[i]].parents ==> p in result[..i])
    && (forall id :: id in queue ==> forall p :: p in g.vertices[id].parents ==> p in result)
    && (forall id :: id in result + queue ==> Ready(g, id))
  }

  lemma CreditBound(g: Graph, content: BatchID -> Batch, done: set<BatchID>, cur: BatchID, walked: seq<BatchID>,
                    id: BatchID)
    requires Sourced(g, content) && id in g.vertices && cur in g.vertices && walked <= g.vertices[cur].children
    ensures Credit(g, done, cur, walked, id) <= Elements(g.vertices[id].parents)
  {
    if id in walked { assert id in g.vertices[cur].children; }
  }

  /** Walking past one more child credits that child alone, and with a batch not counted before. */
  lemma WalkCredits(g: Graph, done: set<BatchID>, cur: BatchID, walked: seq<BatchID>, c: BatchID, id: BatchID)
    requires cur !in done && c !in walked
    ensures |Credit(g, done, cur, walked + [c], id)| ==
            |Credit(g, done, cur, walked, id)| + (if id == c then 1 else 0)
  {
    var before, after := Credit(g, done, cur, walked, id), Credit(g, done, cur, walked + [c], id);
    if id == c {
      assert after == before + {cur};
    } else {
      assert after == before;
    }
  }

  /** The child about to be visited has a counter to decrement. */
  lemma CounterIsPositive(g: Graph, content: BatchID -> Batch, degree: nat, done: set<BatchID>,
                          cur: BatchID, walked: seq<BatchID>, c: BatchID)
    requires Sourced(g, content) && cur in g.vertices && c in g.vertices && cur !in done && c !in walked
    requires walked + [c] <= g.vertices[cur].children
    requires Exact(g, degree, done, cur, walked, c)
    ensures degree > 0
  {
    var after := Credit(g, done, cur, walked + [c], c);
    assert |after| <= |g.vertices[c].parents| by {
      CreditBound(g, content, done, cur, walked + [c], c);
      Pigeonhole(after, g.vertices[c].parents);
    }
    WalkCredits(g, done, cur, walked, c, c);
  }

  lemma DecrementKeepsExact(g: Graph, before: nat, after: nat, done: set<BatchID>, cur: BatchID,
                            walked: seq<BatchID>, c: BatchID, id: BatchID)
    requires cur !in done && c !in walked && id in g.vertices
    requires after + (if id == c then 1 else 0) == before
    requires Exact(g, before, done, cur, walked, id)
    ensures Exact(g, after, done, cur, walked + [c], id)
  {
    WalkCredits(g, done, cur, walked, c, id);
  }

  /** Decrementing the child's counter keeps every counter exact; a dead child has no counter. */
  lemma DecrementKeepsCount(g: Graph, degree: map<BatchID, nat>, degree': map<BatchID, nat>,
                            done: set<BatchID>, cur: BatchID, walked: seq<BatchID>, c: BatchID)
    requires cur !in done && c !in walked
    requires Counted(g, degree, done, cur, walked)
    requires degree'.Keys == degree.Keys
    requires forall id :: id in degree ==> degree[id] == degree'[id] + (if id == c then 1 else 0)
    ensures Counted(g, degree', done, cur, walked + [c])
  {
    forall id | id in g.vertices ensures Exact(g, degree'[id], done, cur, walked + [c], id) {
      DecrementKeepsExact(g, degree[id], degree'[id], done, cur, walked, c, id);
    }
  }

  lemma FinishCredits(g: Graph, done: set<BatchID>, cur: BatchID, next: BatchID, id: BatchID)
    requires cur in g.vertices && id in g.vertices
    ensures Credit(g, done + {cur}, next, [], id) == Credit(g, done, cur, g.vertices[cur].children, id)
  {
  }

  /** Once all children are walked, the current batch simply counts as done. */
  lemma FinishBatch(g: Graph, degree: map<BatchID, nat>, done: set<BatchID>, cur: BatchID, next: BatchID)
    requires cur in g.vertices
    requires Counted(g, degree, done, cur, g.vertices[cur].children)
    ensures Counted(g, degree, done + {cur}, next, [])
  {
    forall id | id in g.vertices ensures Exact(g, degree[id], done + {cur}, next, [], id) {
      assert Exact(g, degree[id], done, cur, g.vertices[cur].children, id);
      FinishCredits(g, done, cur, next, id);
    }
  }

  /** A counter at zero means the credited batches are all of the parents, each listed once. */
  lemma {:induction false} ZeroMeansReady(g: Graph, content: BatchID -> Batch, degree: map<BatchID, nat>,
                                          done: set<BatchID>, cur: BatchID, walked: seq<BatchID>, id: BatchID)
    requires Sourced(g, content) && cur in g.vertices && walked <= g.vertices[cur].children
    requires Counted(g, degree, done, cur, walked) && id in g.vertices && degree[id] == 0
    requires id !in done && id != cur
    ensures Ready(g, id) && forall p :: p in g.vertices[id].parents ==> p in done + {cur}
  {
    var credit := Credit(g, done, cur, walked, id);
    CreditBound(g, content, done, cur, walked, id);
    Pigeonhole(credit, g.vertices[id].parents);
    assert Elements(g.vertices[id].parents) == credit;
    forall p | p in g.vertices[id].parents ensures p in done + {cur} && p != id && Links(g, p, id) {
      assert p in credit;
      if id in walked { assert id in g.vertices[cur].children; }
    }
  }

  // ---------- The steps of the sort ----------

  lemma ReachableIsSourced(g: Graph, content: BatchID -> Batch)
    requires Inv(g, content)
    ensures Sourced(g, content) && Ranked(g)
  {
  }

  lemma StartsCounted(g: Graph, degree: map<BatchID, nat>, cur: BatchID)
    requires degree.Keys == g.vertices.Keys
    requires forall id :: id in degree ==> degree[id] == |g.vertices[id].parents|
    ensures Counted(g, degree, {}, cur, [])
  {
    forall id | id in g.vertices ensures Exact(g, degree[id], {}, cur, [], id) {
      assert Credit(g, {}, cur, [], id) == {};
    }
  }

  lemma StartsInProgress(g: Graph, queue: seq<BatchID>, degree: map<BatchID, nat>)
    requires degree.Keys == g.vertices.Keys && NoDup(queue)
    requires forall id :: id in degree ==> degree[id] == |g.vertices[id].parents|
    requires forall id :: id in queue <==> id in degree && g.vertices[id].parents == []
    ensures Progress(g, [], queue, degree)
  {
    assert [] + queue == queue;
  }

  lemma NewBatchWalk(g: Graph, degree: map<BatchID, nat>, done: set<BatchID>, cur: BatchID, next: BatchID)
    requires Counted(g, degree, done, cur, [])
    ensures Counted(g, degree, done, next, [])
  {
    forall id | id in g.vertices ensures Exact(g, degree[id], done, next, [], id) {
      assert Exact(g, degree[id], done, cur, [], id);
    }
  }

  lemma FirstVisit(g: Graph, content: BatchID -> Batch, cur: BatchID, i: nat)
    requires Sourced(g, content) && cur in g.vertices && i < |g.vertices[cur].children|
    ensures g.vertices[cur].children[i] !in g.vertices[cur].children[..i]
  {
    assert NoDup(g.vertices[cur].children);
  }

  lemma SortedIsBounded(g: Graph, result: seq<BatchID>, queue: seq<BatchID>, degree: map<BatchID, nat>)
    requires Progress(g, result, queue, degree)
    ensures |result| + |queue| <= |g.vertices|
  {
    NoDupCount(result + queue);
    forall id | id in Elements(result + queue) ensures id in g.vertices { assert id in degree; }
    SubsetBound(Elements(result + queue), g.vertices.Keys);
  }

  lemma PopKeepsProgress(g: Graph, result: seq<BatchID>, queue: seq<BatchID>, degree: map<BatchID, nat>)
    requires Progress(g, result, queue, degree) && queue != []
    ensures Progress(g, result + [queue[0]], queue[1..], degree)
    ensures queue[0] in g.vertices && queue[0] !in result
  {
    var result', queue' := result + [queue[0]], queue[1..];
    assert result' + queue' == result + queue;
    assert (result + queue)[|result|] == queue[0];
    forall i | 0 <= i < |result| ensures result[i] != queue[0] {
      assert (result + queue)[i] == result[i];
    }
    forall i, p | 0 <= i < |result'| && p in g.vertices[result'[i]].parents ensures p in result'[..i] {
      if i < |result| { assert result'[..i] == result[..i]; } else { assert result'[..i] == result; }
    }
  }

  lemma LowerKeepsProgress(g: Graph, result: seq<BatchID>, queue: seq<BatchID>, degree: map<BatchID, nat>,
                           c: BatchID, d: nat)
    requires Progress(g, result, queue, degree) && c in degree && degree[c] > 0 && d > 0
    ensures Progress(g, result, queue, degree[c := d])
  {
  }

  lemma PushKeepsProgress(g: Graph, result: seq<BatchID>, queue: seq<BatchID>, degree: map<BatchID, nat>, c: BatchID)
    requires Progress(g, result, queue, degree) && c in degree && degree[c] > 0
    requires Ready(g, c) && forall p :: p in g.vertices[c].parents ==> p in result
    ensures Progress(g, result, queue + [c], degree[c := 0])
  {
    assert result + (queue + [c]) == (result + queue) + [c];
    assert c !in result + queue;
  }

  lemma WaitingIsUnsorted(g: Graph, result: seq<BatchID>, queue: seq<BatchID>, degree: map<BatchID, nat>, c: BatchID)
    requires Progress(g, result, queue, degree) && c in degree && degree[c] > 0
    ensures c !in result
  {
    assert c !in result + queue;
  }

  lemma QueueReleased(g: Graph, content: BatchID -> Batch, sorted: seq<BatchID>, cur: BatchID, queue: seq<BatchID>,
                      degree: map<BatchID, nat>, walked: seq<BatchID>, c: BatchID)
    requires Sourced(g, content) && cur in g.vertices && walked <= g.vertices[cur].children
    requires c in degree && degree[c] > 0 && Counted(g, degree[c := 0], Elements(sorted), cur, walked)
    requires Progress(g, sorted + [cur], queue, degree)
    ensures Progress(g, sorted + [cur], queue + [c], degree[c := 0])
  {
    hide Progress, Sourced;
    WaitingIsUnsorted(g, sorted + [cur], queue, degree, c);
    ElementsAppend(sorted, cur);
    ZeroMeansReady(g, content, degree[c := 0], Elements(sorted), cur, walked, c);
    PushKeepsProgress(g, sorted + [cur], queue, degree, c);
  }

  lemma {:induction false} WaitsForCurrent(g: Graph, content: BatchID -> Batch, degree: map<BatchID, nat>,
                                           done: set<BatchID>, cur: BatchID, walked: seq<BatchID>, c: BatchID)
    requires Sourced(g, content) && cur in g.vertices && cur !in done && c in degree && c !in walked
    requires walked + [c] <= g.vertices[cur].children && Counted(g, degree, done, cur, walked)
    ensures degree[c] > 0
  {
    assert c in g.vertices && Exact(g, degree[c], done, cur, walked, c);
    CounterIsPositive(g, content, degree[c], done, cur, walked, c);
  }

  lemma VisitCounts(g: Graph, degree: map<BatchID, nat>, done: set<BatchID>, cur: BatchID, walked: seq<BatchID>,
                    c: BatchID)
    requires cur !in done && c in degree && degree[c] > 0 && c !in walked
    requires Counted(g, degree, done, cur, walked)
    ensures Counted(g, degree[c := degree[c] - 1], done, cur, walked + [c])
  {
    hide Counted;
    DecrementKeepsCount(g, degree, degree[c := degree[c] - 1], done, cur, walked, c);
  }

  /** Visiting a live child never takes its counter below zero; it is queued when nothing is left to wait for. */
  lemma {:induction false} VisitChild(g: Graph, content: BatchID -> Batch, sorted: seq<BatchID>, cur: BatchID,
                                      queue: seq<BatchID>, degree: map<BatchID, nat>, walked: seq<BatchID>,
                                      c: BatchID)
    requires Sourced(g, content) && cur in g.vertices && cur !in sorted && c in degree && c !in walked
    requires walked + [c] <= g.vertices[cur].children
    requires Counted(g, degree, Elements(sorted), cur, walked) && Progress(g, sorted + [cur], queue, degree)
    ensures degree[c] > 0
    ensures Counted(g, degree[c := degree[c] - 1], Elements(sorted), cur, walked + [c])
    ensures degree[c] > 1 ==> Progress(g, sorted + [cur], queue, degree[c := degree[c] - 1])
    ensures degree[c] == 1 ==> Progress(g, sorted + [cur], queue + [c], degree[c := degree[c] - 1])
  {
    hide Progress, Sourced, Counted;
    WaitsForCurrent(g, content, degree, Elements(sorted), cur, walked, c);
    VisitCounts(g, degree, Elements(sorted), cur, walked, c);
    if degree[c] == 1 {
      QueueReleased(g, content, sorted, cur, queue, degree, walked + [c], c);
    } else {
      LowerKeepsProgress(g, sorted + [cur], queue, degree, c, degree[c] - 1);
    }
  }

  /** A child that is no longer live has no counter and earns no credit. */
  lemma SkipChild(g: Graph, sorted: seq<BatchID>, cur: BatchID, degree: map<BatchID, nat>, walked: seq<BatchID>,
                  c: BatchID)
    requires cur !in sorted && c !in degree && c !in walked
    requires Counted(g, degree, Elements(sorted), cur, walked)
    ensures Counted(g, degree, Elements(sorted), cur, walked + [c])
  {
    DecrementKeepsCount(g, degree, degree, Elements(sorted), cur, walked, c);
  }

  /** With the queue empty, a ready batch whose ranking is lower than any stuck batch has been sorted. */
  lemma {:induction false} NothingIsStuck(g: Graph, rank: map<BatchID, nat>, result: seq<BatchID>,
                                          degree: map<BatchID, nat>, cur: BatchID, id: BatchID)
    requires RankedBy(g, rank) && Sortable(g) && id in g.vertices
    requires Counted(g, degree, Elements(result), cur, []) && Progress(g, result, [], degree)
    ensures id in result
    decreases rank[id]
  {
    var parents := g.vertices[id].parents;
    assert Ready(g, id);
    forall p | p in parents ensures p in result {
      assert Links(g, p, id);
      NothingIsStuck(g, rank, result, degree, cur, p);
    }
    NoDupCount(parents);
    var credit := Credit(g, Elements(result), cur, [], id);
    forall p | p in parents ensures p in credit { assert Links(g, p, id); }
    SubsetBound(Elements(parents), credit);
    assert Exact(g, degree[id], Elements(result), cur, [], id);
    assert id in result + [];
  }

  lemma {:induction false} StuckOnlyIfUnsortable(g: Graph, result: seq<BatchID>, degree: map<BatchID, nat>,
                                                 cur: BatchID)
    requires Ranked(g) && Sortable(g)
    requires Counted(g, degree, Elements(result), cur, []) && Progress(g, result, [], degree)
    ensures g.vertices.Keys <= Elements(result)
  {
    var rank :| RankedBy(g, rank);
    forall id | id in g.vertices ensures id in result { NothingIsStuck(g, rank, result, degree, cur, id); }
  }

  lemma SortedIsTopological(g: Graph, result: seq<BatchID>, degree: map<BatchID, nat>)
    requires Progress(g, result, [], degree) && Elements(result) == g.vertices.Keys
    ensures Sortable(g) && TopologicalOrder(g, result)
  {
    assert result + [] == result;
    forall id | id in g.vertices ensures Ready(g, id) { assert id in Elements(result); }
  }

  lemma SortedIsLive(g: Graph, result: seq<BatchID>, degree: map<BatchID, nat>)
    requires Progress(g, result, [], degree)
    ensures Elements(result) <= g.vertices.Keys
    ensures |result| == |g.vertices| <==> Elements(result) == g.vertices.Keys
  {
    assert result + [] == result;
    NoDupCount(result);
    forall id | id in Elements(result) ensures id in g.vertices { assert id in degree; }
    SubsetBound(Elements(result), g.vertices.Keys);
  }

  /** The sort has seen every batch exactly when the graph can be sorted. */
  lemma {:induction false} CountDecides(g: Graph, result: seq<BatchID>, degree: map<BatchID, nat>, cur: BatchID)
    requires Ranked(g)
    requires Counted(g, degree, Elements(result), cur, []) && Progress(g, result, [], degree)
    ensures |result| == |g.vertices| <==> Sortable(g)
    ensures |result| == |g.vertices| ==> TopologicalOrder(g, result)
  {
    SortedIsLive(g, result, degree);
    if Sortable(g) {
      StuckOnlyIfUnsortable(g, result, degree, cur);
    }
    if |result| == |g.vertices| {
      SortedIsTopological(g, result, degree);
    }
  }

  // ---------- Where the sort reports a cycle that is not there ----------

  const PARENT := Batch([1], [], [])
  const CHILD := Batch([2], [[1]], [])

  /** A parent that arrives after its child is never linked: the sort fails although an order exists. */
  lemma LateParentIsNeverLinked()
    ensures var g := Run([Add(CHILD, true, 0), Add(PARENT, true, 0)]);
            !Sortable(g) && TopologicalOrder(g, [[1], [2]])
  {
    RunOne([], Add(CHILD, true, 0));
    RunOne([Add(CHILD, true, 0)], Add(PARENT, true, 0));
    var first := Run([Add(CHILD, true, 0)]);
    var g := Run([Add(CHILD, true, 0), Add(PARENT, true, 0)]);
    assert [] + [Add(CHILD, true, 0)] == [Add(CHILD, true, 0)];
    assert [Add(CHILD, true, 0)] + [Add(PARENT, true, 0)] == [Add(CHILD, true, 0), Add(PARENT, true, 0)];
    assert first == Added(EMPTY, CHILD, 0);
    assert first.vertices.Keys == {CHILD.id};
    AddSortable(EMPTY, CHILD, 0);
    assert !ArrivesInOrder(EMPTY, CHILD) by { assert PARENT.id in CHILD.parents; }
    AddSortable(first, PARENT, 0);
    var order: seq<BatchID> := [[1], [2]];
    assert g.vertices.Keys == {PARENT.id, CHILD.id};
    forall i, p | 0 <= i < |order| && p in g.vertices[order[i]].parents ensures p in order[..i] {
      assert i == 1 && p == PARENT.id && order[0] == PARENT.id;
    }
  }

  /** The graph after a batch without parents and then its only child. */
  function Pair(parent: Batch, child: Batch): Graph {
    Graph(map[parent.id := NewVertex(parent, 0).(children := [child.id]), child.id := NewVertex(child, 0)],
          {parent.id}, {child.id})
  }

  lemma ParentThenChild(parent: Batch, child: Batch)
    requires parent.parents == [] && child.parents == [parent.id] && parent.id != child.id
    ensures Run([Add(parent, true, 0), Add(child, true, 0)]) == Pair(parent, child)
    ensures Sortable(Pair(parent, child))
  {
    RunOne([], Add(parent, true, 0));
    RunOne([Add(parent, true, 0)], Add(child, true, 0));
    assert [] + [Add(parent, true, 0)] == [Add(parent, true, 0)];
    assert [Add(parent, true, 0)] + [Add(child, true, 0)] == [Add(parent, true, 0), Add(child, true, 0)];
    hide Run, Sortable;
    var one := Graph(map[parent.id := NewVertex(parent, 0)], {parent.id}, {parent.id});
    assert Added(EMPTY, parent, 0) == one;
    assert VertexAfter(one, child, 0, child.parents, parent.id) == NewVertex(parent, 0).(children := [child.id]);
    assert VertexAfter(one, child, 0, child.parents, child.id) == NewVertex(child, 0);
    assert VerticesAfter(one, child, 0, child.parents) == Pair(parent, child).vertices;
    assert TipsAfter(one, child, child.parents) == {};
    assert Added(one, child, 0) == Pair(parent, child);
    PairIsSortable(parent, child);
  }

  lemma PairIsSortable(parent: Batch, child: Batch)
    requires parent.parents == [] && child.parents == [parent.id] && parent.id != child.id
    ensures Sortable(Pair(parent, child))
  {
    assert Links(Pair(parent, child), parent.id, child.id);
  }

  /** Pruning a finalized batch whose child is still live makes the sort fail. */
  lemma PruningAParentBreaksTheSort()
    ensures var g := Step(Run([Add(PARENT, true, 0), Add(CHILD, true, 0)]), Finalize(PARENT.id));
            Sortable(g) && !Sortable(Step(g, Prune(0, 1)))
  {
    hide Run;
    ParentThenChild(PARENT, CHILD);
    var before := Run([Add(PARENT, true, 0), Add(CHILD, true, 0)]);
    var g := Step(before, Finalize(PARENT.id));
    assert Links(g, PARENT.id, CHILD.id);
    assert Sortable(g);
    var after := Step(g, Prune(0, 1));
    assert PARENT.id in Stale(g, 0, 1) && CHILD.id !in Stale(g, 0, 1);
    assert CHILD.id in after.vertices && PARENT.id in after.vertices[CHILD.id].parents;
    assert !Links(after, PARENT.id, CHILD.id);
  }
}
