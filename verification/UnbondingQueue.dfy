/** Requests that wait out the unbonding period, shared by unstaking and undelegation. */
module UnbondingQueue {
  import opened Collections

  const UNBONDING_PERIOD_SECS: nat := 7 * 24 * 60 * 60

  datatype Request<P> = Request(claim: P, requestedAt: nat, unbondsAt: nat, completed: bool)

  function NewRequest<P>(claim: P, now: nat): Request<P> {
    Request(claim, now, now + UNBONDING_PERIOD_SECS, false)
  }

  predicate Ripe<P>(r: Request<P>, now: nat) {
    !r.completed && now >= r.unbondsAt
  }

  function Completed<P>(r: Request<P>): Request<P> {
    r.(completed := true)
  }

  /** The requests that complete at `now`, marked as completed. */
  function Ripened<P>(rs: seq<Request<P>>, now: nat): seq<Request<P>> {
    if rs == [] then []
    else
      var n := |rs| - 1;
      Ripened(rs[..n], now) + if Ripe(rs[n], now) then [Completed(rs[n])] else []
  }

  /** The requests that stay queued. */
  function Waiting<P>(rs: seq<Request<P>>, now: nat): seq<Request<P>> {
    if rs == [] then []
    else
      var n := |rs| - 1;
      Waiting(rs[..n], now) + if rs[n].completed || Ripe(rs[n], now) then [] else [rs[n]]
  }

  /** `retain(|r| !r.completed)`. */
  function Uncompleted<P>(rs: seq<Request<P>>): seq<Request<P>> {
    if rs == [] then []
    else
      var n := |rs| - 1;
      Uncompleted(rs[..n]) + if rs[n].completed then [] else [rs[n]]
  }

  /** No queued request is marked, and each is due seven days after it was made. */
  ghost predicate Queued<P(!new)>(rs: seq<Request<P>>) {
    forall r :: r in rs ==> !r.completed && r.unbondsAt == r.requestedAt + UNBONDING_PERIOD_SECS
  }

  /** What the scan of the queue does with one more request. */
  lemma ScanAppend<P>(rs: seq<Request<P>>, r: Request<P>, now: nat)
    ensures Ripened(rs + [r], now) == Ripened(rs, now) + if Ripe(r, now) then [Completed(r)] else []
    ensures Waiting(rs + [r], now) == Waiting(rs, now) + if r.completed || Ripe(r, now) then [] else [r]
  {
    assert (rs + [r])[..|rs|] == rs;
  }

  /** The queue splits into what is due and what is not; each request goes to one side. */
  lemma {:induction false} QueueSplits<P(!new)>(rs: seq<Request<P>>, now: nat)
    requires Queued(rs)
    ensures Queued(Waiting(rs, now))
    ensures forall r :: r in Waiting(rs, now) <==> r in rs && now < r.requestedAt + UNBONDING_PERIOD_SECS
    ensures forall r :: r in Ripened(rs, now) <==>
              r.completed && r.(completed := false) in rs && now >= r.requestedAt + UNBONDING_PERIOD_SECS
  {
    if rs != [] {
      QueueSplits(rs[..|rs| - 1], now);
      assert rs == rs[..|rs| - 1] + [rs[|rs| - 1]];
    }
  }

  // ---------- The scan that marks, collects and then drops the ripe requests ----------

  /** The first `i` requests have been looked at: the ripe ones are marked and collected. */
  ghost predicate Scanned<P>(queue: seq<Request<P>>, live: seq<Request<P>>, completed: seq<Request<P>>, i: nat,
                             now: nat) {
    && i <= |queue| == |live|
    && live[i..] == queue[i..]
    && completed == Ripened(queue[..i], now)
    && Uncompleted(live[..i]) == Waiting(queue[..i], now)
  }

  lemma ScanStart<P>(queue: seq<Request<P>>, now: nat)
    ensures Scanned(queue, queue, [], 0, now)
  {
  }

  lemma ScanOne<P>(queue: seq<Request<P>>, live: seq<Request<P>>, completed: seq<Request<P>>, i: nat, now: nat)
    requires Scanned(queue, live, completed, i, now) && i < |live|
    ensures i < |queue| && live[i] == queue[i]
    ensures Ripe(live[i], now) ==>
        Scanned(queue, live[i := Completed(live[i])], completed + [Completed(live[i])], i + 1, now)
    ensures !Ripe(live[i], now) ==> Scanned(queue, live, completed, i + 1, now)
  {
    assert live[i] == live[i..][0] == queue[i..][0];
    var live' := if Ripe(live[i], now) then live[i := Completed(live[i])] else live;
    TakeOneMore(queue, i);
    ScanAppend(queue[..i], queue[i], now);
    TakeOneMore(live', i);
    assert live'[..i + 1][..i] == live[..i];
    assert live'[i + 1..] == live[i..][1..] == queue[i..][1..] == queue[i + 1..];
  }

  lemma ScanDone<P>(queue: seq<Request<P>>, live: seq<Request<P>>, completed: seq<Request<P>>, now: nat)
    requires Scanned(queue, live, completed, |live|, now)
    ensures completed == Ripened(queue, now) && Uncompleted(live) == Waiting(queue, now)
  {
    TakeAll(queue);
    TakeAll(live);
  }

  // ---------- Many queues ----------

  /** What the queues outside `todo` release, those that release nothing left out. */
  ghost function Releases<K, P>(queues: map<K, seq<Request<P>>>, now: nat, todo: set<K>): map<K, seq<Request<P>>> {
    map k | k in queues && k !in todo && Ripened(queues[k], now) != [] :: Ripened(queues[k], now)
  }

  lemma ReleaseNone<K, P>(queues: map<K, seq<Request<P>>>, now: nat)
    ensures Releases(queues, now, queues.Keys) == map[]
  {
  }

  lemma ReleaseOne<K, P>(queues: map<K, seq<Request<P>>>, now: nat, todo: set<K>, k: K)
    requires k in queues && k in todo
    ensures var done := Ripened(queues[k], now);
            Releases(queues, now, todo - {k}) ==
            if done != [] then Releases(queues, now, todo)[k := done] else Releases(queues, now, todo)
  {
    hide Ripened;
  }
}
