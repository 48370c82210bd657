/** What a run of the flow graph says about each live batch since its latest insertion. */
module FlowGraphHistory {
  import opened Wrappers
  import opened Collections
  import opened FlowGraphSpec

  /** `id` is live after the first `j` operations. */
  ghost predicate LiveAt(ops: seq<Op>, j: nat, id: BatchID)
    requires j <= |ops|
  {
    id in Run(ops[..j]).vertices
  }

  /** Operation `k` inserted `id`, which has been live ever since. */
  ghost predicate InsertedAt(ops: seq<Op>, id: BatchID, k: nat) {
    k < |ops| && !LiveAt(ops, k, id) && forall j :: k < j <= |ops| ==> LiveAt(ops, j, id)
  }

  /** The batch inserted by operation `k` names distinct parents that were live then and have been live ever since. */
  ghost predicate KeepsParents(ops: seq<Op>, k: nat) {
    && k < |ops| && ops[k].Add? && NoDup(ops[k].batch.parents)
    && forall p, j :: p in ops[k].batch.parents && k <= j <= |ops| ==> LiveAt(ops, j, p)
  }

  predicate Certifies(op: Op, id: BatchID) {
    op.Certify? && op.id == id
  }

  ghost predicate CertifiedSince(ops: seq<Op>, id: BatchID, k: nat) {
    exists j :: k < j < |ops| && Certifies(ops[j], id)
  }

  // ---------- One step ----------

  /** A step leaves a surviving batch as it was inserted, and ready exactly when it was and keeps its parents. */
  lemma StepReadiness(g: Graph, op: Op, id: BatchID)
    requires id in g.vertices && id in Step(g, op).vertices
    ensures Step(g, op).vertices[id].batch == g.vertices[id].batch
    ensures Step(g, op).vertices[id].parents == g.vertices[id].parents
    ensures Ready(Step(g, op), id) <==>
            Ready(g, id) && forall p :: p in g.vertices[id].parents ==> p in Step(g, op).vertices
  {
    hide Ready;
    ReadyParentsAreLive(g, id);
    match op
    case Add(b, wellFormed, now) => if Accepts(g, b, wellFormed) { AddKeepsReadiness(g, b, now, id); }
    case Certify(x, c) =>
      if x in g.vertices { RelabelReadiness(g, x, g.vertices[x].(certificate := Some(c)), id); }
    case Finalize(x) =>
      if x in g.vertices { RelabelReadiness(g, x, g.vertices[x].(finalized := true), id); }
    case Prune(retention, now) => RemovalReadiness(g, Stale(g, retention, now), id);
    case Clear =>
  }

  lemma ReadyParentsAreLive(g: Graph, id: BatchID)
    requires id in g.vertices
    ensures Ready(g, id) ==> forall p :: p in g.vertices[id].parents ==> p in g.vertices
  {
    if Ready(g, id) {
      forall p | p in g.vertices[id].parents ensures p in g.vertices { assert Links(g, p, id); }
    }
  }

  /** Only an accepted insertion makes a batch live, and it stores the batch uncertified. */
  lemma StepInserts(g: Graph, op: Op, id: BatchID)
    requires id !in g.vertices && id in Step(g, op).vertices
    ensures op.Add? && op.batch.id == id && Accepts(g, op.batch, op.wellFormed)
    ensures var v := Step(g, op).vertices[id];
            v.batch == op.batch && v.parents == op.batch.parents && v.certificate.None?
    ensures Ready(Step(g, op), id) <==> ArrivesInOrder(g, op.batch)
  {
    if op.Add? && Accepts(g, op.batch, op.wellFormed) && op.batch.id == id { NewcomerReadiness(g, op.batch, op.now); }
  }

  lemma StepCertifies(g: Graph, op: Op, id: BatchID)
    requires id in g.vertices && id in Step(g, op).vertices
    ensures Step(g, op).vertices[id].certificate.Some? <==> g.vertices[id].certificate.Some? || Certifies(op, id)
  {
  }

  // ---------- Whole runs ----------

  lemma RunLast(ops: seq<Op>)
    requires ops != []
    ensures Run(ops) == Step(Run(ops[..|ops| - 1]), ops[|ops| - 1])
    ensures forall j, id :: 0 <= j < |ops| ==> (LiveAt(ops[..|ops| - 1], j, id) <==> LiveAt(ops, j, id))
    ensures forall id :: LiveAt(ops, |ops|, id) <==> id in Run(ops).vertices
  {
    assert ops[..|ops|] == ops;
    forall j | 0 <= j < |ops| ensures ops[..|ops| - 1][..j] == ops[..j] {}
  }

  /** Every live batch has a latest insertion. */
  lemma {:induction false} LatestInsertion(ops: seq<Op>, id: BatchID) returns (k: nat)
    requires id in Run(ops).vertices
    ensures InsertedAt(ops, id, k)
  {
    if ops != [] {
      RunLast(ops);
      var n := |ops| - 1;
      if id in Run(ops[..n]).vertices {
        k := LatestInsertion(ops[..n], id);
        assert LiveAt(ops, k, id) == LiveAt(ops[..n], k, id);
        forall j | k < j <= |ops| ensures LiveAt(ops, j, id) {
          if j < |ops| { assert LiveAt(ops[..n], j, id); }
        }
      } else {
        k := n;
      }
    }
  }

  lemma EarlierInsertion(ops: seq<Op>, id: BatchID, k: nat)
    requires InsertedAt(ops, id, k)
    ensures k < |ops| && id in Run(ops).vertices
    ensures k < |ops| - 1 ==> InsertedAt(ops[..|ops| - 1], id, k) && id in Run(ops[..|ops| - 1]).vertices
    ensures k == |ops| - 1 ==> id !in Run(ops[..|ops| - 1]).vertices
  {
    RunLast(ops);
    assert LiveAt(ops, |ops|, id);
    var init := ops[..|ops| - 1];
    if k < |ops| - 1 {
      assert init[..|init|] == init;
      forall j | k < j <= |init| ensures LiveAt(init, j, id) { assert LiveAt(ops, j, id); }
    }
  }

  lemma KeepsParentsLater(ops: seq<Op>, k: nat)
    requires k < |ops| - 1 && ops[k].Add?
    ensures var init := ops[..|ops| - 1];
            KeepsParents(ops, k) <==>
            KeepsParents(init, k) && forall p :: p in ops[k].batch.parents ==> p in Run(ops).vertices
  {
    RunLast(ops);
    var init := ops[..|ops| - 1];
    assert init[k] == ops[k];
    if KeepsParents(ops, k) {
      forall p, j | p in init[k].batch.parents && k <= j <= |init| ensures LiveAt(init, j, p) {
        assert LiveAt(ops, j, p);
      }
      forall p | p in ops[k].batch.parents ensures p in Run(ops).vertices { assert LiveAt(ops, |ops|, p); }
    }
    if KeepsParents(init, k) && forall p :: p in ops[k].batch.parents ==> p in Run(ops).vertices {
      forall p, j | p in ops[k].batch.parents && k <= j <= |ops| ensures LiveAt(ops, j, p) {
        if j < |ops| { assert LiveAt(init, j, p); }
      }
    }
  }

  lemma KeepsParentsNow(ops: seq<Op>, k: nat)
    requires ops != [] && k == |ops| - 1 && ops[k].Add?
    ensures KeepsParents(ops, k) <==>
            && ArrivesInOrder(Run(ops[..k]), ops[k].batch)
            && forall p :: p in ops[k].batch.parents ==> p in Run(ops).vertices
  {
    RunLast(ops);
    if KeepsParents(ops, k) {
      forall p | p in ops[k].batch.parents ensures p in Run(ops[..k]).vertices && p in Run(ops).vertices {
        assert LiveAt(ops, k, p) && LiveAt(ops, k + 1, p);
      }
    }
  }

  /** A batch stays as inserted; it is ready exactly when its parents were distinct and live then and have stayed. */
  lemma {:induction false} ReadyExactly(ops: seq<Op>, id: BatchID, k: nat)
    requires InsertedAt(ops, id, k)
    ensures ops[k].Add? && ops[k].batch.id == id && id in Run(ops).vertices
    ensures Run(ops).vertices[id].batch == ops[k].batch && Run(ops).vertices[id].parents == ops[k].batch.parents
    ensures Ready(Run(ops), id) <==> KeepsParents(ops, k)
  {
    hide Ready, InsertedAt, KeepsParents, Step, Run, LiveAt;
    EarlierInsertion(ops, id, k);
    RunLast(ops);
    var init, op := ops[..|ops| - 1], ops[|ops| - 1];
    if k < |ops| - 1 {
      ReadyExactly(init, id, k);
      StepReadiness(Run(init), op, id);
      KeepsParentsLater(ops, k);
    } else {
      StepInserts(Run(init), op, id);
      KeepsParentsNow(ops, k);
      InsertionKeepsLive(Run(init), op, id);
    }
  }

  lemma InsertionKeepsLive(g: Graph, op: Op, id: BatchID)
    requires id !in g.vertices && id in Step(g, op).vertices
    ensures forall p :: p in g.vertices ==> p in Step(g, op).vertices
  {
  }

  /** A run's graph can be sorted exactly when every live batch came after its parents and has lost none of them. */
  lemma RunSortable(ops: seq<Op>)
    ensures Sortable(Run(ops)) <==> forall id, k :: InsertedAt(ops, id, k) ==> KeepsParents(ops, k)
  {
    hide Ready, InsertedAt, KeepsParents, Run;
    if Sortable(Run(ops)) {
      forall id, k | InsertedAt(ops, id, k) ensures KeepsParents(ops, k) { ReadyExactly(ops, id, k); }
    }
    if forall id, k :: InsertedAt(ops, id, k) ==> KeepsParents(ops, k) {
      forall id | id in Run(ops).vertices ensures Ready(Run(ops), id) {
        var k := LatestInsertion(ops, id);
        ReadyExactly(ops, id, k);
      }
    }
  }

  /** A live batch is certified exactly when some operation since its latest insertion certified it. */
  lemma {:induction false} CertifiedExactly(ops: seq<Op>, id: BatchID, k: nat)
    requires InsertedAt(ops, id, k)
    ensures id in Run(ops).vertices
    ensures Run(ops).vertices[id].certificate.Some? <==> CertifiedSince(ops, id, k)
  {
    hide InsertedAt, Step, Run, LiveAt;
    EarlierInsertion(ops, id, k);
    RunLast(ops);
    var init, op := ops[..|ops| - 1], ops[|ops| - 1];
    if k < |ops| - 1 {
      CertifiedExactly(init, id, k);
      StepCertifies(Run(init), op, id);
      CertifiedLater(ops, id, k);
    } else {
      StepInserts(Run(init), op, id);
    }
  }

  lemma CertifiedLater(ops: seq<Op>, id: BatchID, k: nat)
    requires k < |ops| - 1
    ensures CertifiedSince(ops, id, k) <==>
            CertifiedSince(ops[..|ops| - 1], id, k) || Certifies(ops[|ops| - 1], id)
  {
    var init := ops[..|ops| - 1];
    if j :| k < j < |ops| && Certifies(ops[j], id) {
      if j < |init| { assert Certifies(init[j], id); }
    }
    if j :| k < j < |init| && Certifies(init[j], id) { assert Certifies(ops[j], id); }
  }

  // ---------- What is stored, and how long ----------

  /** The certificate most recently set for `id` after operation `k`. */
  function LatestCertificate(ops: seq<Op>, id: BatchID, k: nat): Option<Certificate>
    requires k < |ops|
  {
    var n := |ops| - 1;
    if n == k then None
    else if Certifies(ops[n], id) then Some(ops[n].certificate)
    else LatestCertificate(ops[..n], id, k)
  }

  ghost predicate FinalizedSince(ops: seq<Op>, id: BatchID, k: nat) {
    exists j :: k < j < |ops| && ops[j].Finalize? && ops[j].id == id
  }

  lemma StepStores(g: Graph, op: Op, id: BatchID)
    requires id in g.vertices && id in Step(g, op).vertices
    ensures var v, w := g.vertices[id], Step(g, op).vertices[id];
            && w.addedAt == v.addedAt
            && w.certificate == (if Certifies(op, id) then Some(op.certificate) else v.certificate)
            && (w.finalized <==> v.finalized || (op.Finalize? && op.id == id))
  {
  }

  lemma InsertionStores(g: Graph, op: Op, id: BatchID)
    requires id !in g.vertices && id in Step(g, op).vertices
    ensures op.Add? && Step(g, op).vertices[id].addedAt == op.now
    ensures Step(g, op).vertices[id].certificate == None && !Step(g, op).vertices[id].finalized
  {
  }

  lemma FinalizedLater(ops: seq<Op>, id: BatchID, k: nat)
    requires k < |ops| - 1
    ensures var op := ops[|ops| - 1];
            FinalizedSince(ops, id, k) <==>
            FinalizedSince(ops[..|ops| - 1], id, k) || (op.Finalize? && op.id == id)
  {
    var init := ops[..|ops| - 1];
    if j :| k < j < |ops| && ops[j].Finalize? && ops[j].id == id {
      if j < |init| { assert init[j].Finalize? && init[j].id == id; }
    }
    if j :| k < j < |init| && init[j].Finalize? && init[j].id == id { assert ops[j].Finalize? && ops[j].id == id; }
  }

  /** A live batch has its insertion time, its latest certificate, and the final mark exactly if it was set since. */
  lemma {:induction false} StoredExactly(ops: seq<Op>, id: BatchID, k: nat)
    requires InsertedAt(ops, id, k)
    ensures k < |ops| && ops[k].Add? && id in Run(ops).vertices
    ensures var v := Run(ops).vertices[id];
            && v.addedAt == ops[k].now && v.certificate == LatestCertificate(ops, id, k)
            && (v.finalized <==> FinalizedSince(ops, id, k))
  {
    hide InsertedAt, Step, Run, LiveAt, FinalizedSince;
    EarlierInsertion(ops, id, k);
    RunLast(ops);
    var init, op := ops[..|ops| - 1], ops[|ops| - 1];
    if k < |ops| - 1 {
      StoredExactly(init, id, k);
      StepStores(Run(init), op, id);
      FinalizedLater(ops, id, k);
    } else {
      InsertionStores(Run(init), op, id);
      NoneSince(ops, id);
    }
  }

  lemma NoneSince(ops: seq<Op>, id: BatchID)
    requires ops != []
    ensures !FinalizedSince(ops, id, |ops| - 1)
  {
  }

  /** Pruning takes a batch exactly when it was marked final since its insertion and the retention time has passed. */
  lemma {:induction false} PrunedExactly(ops: seq<Op>, id: BatchID, k: nat, retention: nat, now: nat)
    requires InsertedAt(ops, id, k)
    ensures k < |ops| && ops[k].Add?
    ensures id !in Run(ops + [Prune(retention, now)]).vertices <==>
            FinalizedSince(ops, id, k) && now > ops[k].now + retention
  {
    hide InsertedAt, Run, FinalizedSince;
    StoredExactly(ops, id, k);
    RunOne(ops, Prune(retention, now));
    StaleExactly(Run(ops), id, retention, now);
  }

  lemma StaleExactly(g: Graph, id: BatchID, retention: nat, now: nat)
    requires id in g.vertices
    ensures id !in Step(g, Prune(retention, now)).vertices <==>
            g.vertices[id].finalized && now > g.vertices[id].addedAt + retention
  {
  }

  /** A batch becomes live exactly by a well-formed insertion, and besides pruning only clearing ends that. */
  lemma LiveExactly(ops: seq<Op>, op: Op, id: BatchID)
    ensures id !in Run(ops).vertices ==>
              (id in Run(ops + [op]).vertices <==> op.Add? && op.wellFormed && op.batch.id == id)
    ensures id in Run(ops).vertices && !op.Prune? ==> (id in Run(ops + [op]).vertices <==> !op.Clear?)
  {
    RunOne(ops, op);
  }

  // ---------- A condition on the operations alone ----------

  /** Whenever a batch is accepted its parents are live, and no pruning takes a parent from a survivor. */
  ghost predicate Orderly(ops: seq<Op>) {
    && (forall k :: 0 <= k < |ops| && ops[k].Add? && Accepts(Run(ops[..k]), ops[k].batch, ops[k].wellFormed) ==>
          ArrivesInOrder(Run(ops[..k]), ops[k].batch))
    && (forall k :: 0 <= k < |ops| && ops[k].Prune? ==> SparesParents(Run(ops[..k]), ops[k].retention, ops[k].now))
  }

  ghost predicate SparesParents(g: Graph, retention: nat, now: nat) {
    forall id, p :: id in g.vertices && id !in Stale(g, retention, now) && p in g.vertices[id].parents ==>
      p !in Stale(g, retention, now)
  }

  lemma StepSortable(g: Graph, op: Op)
    requires Sortable(g)
    requires op.Add? && Accepts(g, op.batch, op.wellFormed) ==> ArrivesInOrder(g, op.batch)
    requires op.Prune? ==> SparesParents(g, op.retention, op.now)
    ensures Sortable(Step(g, op))
  {
    hide Ready;
    match op
    case Add(b, wellFormed, now) => if Accepts(g, b, wellFormed) { AddSortable(g, b, now); }
    case Prune(retention, now) => RemovalSortable(g, Stale(g, retention, now));
    case Certify(_, _) => forall id | id in g.vertices ensures Ready(Step(g, op), id) { RelabelKeepsReady(g, op, id); }
    case Finalize(_) => forall id | id in g.vertices ensures Ready(Step(g, op), id) { RelabelKeepsReady(g, op, id); }
    case Clear =>
  }

  lemma RelabelKeepsReady(g: Graph, op: Op, id: BatchID)
    requires (op.Certify? || op.Finalize?) && id in g.vertices && Ready(g, id)
    ensures Ready(Step(g, op), id)
  {
    hide Ready;
    ReadyParentsAreLive(g, id);
    StepReadiness(g, op, id);
  }

  /** Every orderly run, with any prunings and clears in it, can be sorted. */
  lemma {:induction false} OrderlyRunSortable(ops: seq<Op>)
    requires Orderly(ops)
    ensures Sortable(Run(ops))
  {
    if ops != [] {
      var init := ops[..|ops| - 1];
      forall k | 0 <= k < |init| ensures init[..k] == ops[..k] && init[k] == ops[k] {}
      OrderlyRunSortable(init);
      StepSortable(Run(init), ops[|ops| - 1]);
    }
  }
}
