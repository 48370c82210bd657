/**
 * The cache of flow-graph traversals as a state machine. An entry is found by the hash of a graph; a list of hashes,
 * least recently used first, decides which entry a full cache gives up.
 */
module FlowGraphCacheSpec {
  import opened Wrappers
  import opened Collections
  import opened ByteStrings

  /** A traversal is the ordered list of a graph's transaction digests. */
  type Traversal = seq<Bytes>

  datatype CacheState = CacheState(cache: map<nat, Traversal>, order: seq<nat>)

  datatype Op = Get(hash: nat) | Put(hash: nat, traversal: Traversal) | Clear

  const EMPTY := CacheState(map[], [])

  /** The list without the first occurrence of `h`. */
  function Without(order: seq<nat>, h: nat): seq<nat> {
    if order == [] then []
    else if order[0] == h then order[1..]
    else [order[0]] + Without(order[1..], h)
  }

  function Touched(s: CacheState, h: nat): CacheState {
    s.(order := Without(s.order, h) + [h])
  }

  function Evicted(s: CacheState): CacheState {
    if s.order == [] then s else CacheState(s.cache - {s.order[0]}, s.order[1..])
  }

  predicate MustEvict(s: CacheState, h: nat, maxSize: nat) {
    |s.cache| >= maxSize && h !in s.cache
  }

  function Stored(s: CacheState, h: nat, t: Traversal): CacheState {
    CacheState(s.cache[h := t], s.order + [h])
  }

  function Step(s: CacheState, op: Op, maxSize: nat): CacheState {
    match op
    case Get(h) => if h in s.cache then Touched(s, h) else s
    case Put(h, t) => Stored(if MustEvict(s, h, maxSize) then Evicted(s) else s, h, t)
    case Clear => EMPTY
  }

  function Run(ops: seq<Op>, maxSize: nat): CacheState {
    if ops == [] then EMPTY
    else Step(Run(ops[..|ops| - 1], maxSize), ops[|ops| - 1], maxSize)
  }

  // ---------- What the cache is compared with ----------

  /** The plain map a cache stands for: the traversal last stored under `h` since the last clear. */
  function LastPut(ops: seq<Op>, h: nat): Option<Traversal> {
    if ops == [] then None
    else
      match ops[|ops| - 1]
      case Clear => None
      case Put(k, t) => if k == h then Some(t) else LastPut(ops[..|ops| - 1], h)
      case Get(_) => LastPut(ops[..|ops| - 1], h)
  }

  predicate Uses(op: Op, h: nat) {
    !op.Clear? && op.hash == h
  }

  /** When `h` was last asked for or stored, counting operations from 1; 0 for never. */
  function LastUse(ops: seq<Op>, h: nat): (n: nat)
    ensures n <= |ops|
  {
    if ops == [] then 0
    else if Uses(ops[|ops| - 1], h) then |ops|
    else LastUse(ops[..|ops| - 1], h)
  }

  /** How often a traversal was stored under a hash that was still cached. */
  function RePuts(ops: seq<Op>, maxSize: nat): nat {
    if ops == [] then 0
    else
      var before, op := ops[..|ops| - 1], ops[|ops| - 1];
      RePuts(before, maxSize) + if op.Put? && op.hash in Run(before, maxSize).cache then 1 else 0
  }

  function Max(a: nat, b: nat): nat {
    if a < b then b else a
  }

  /** A cache of size zero still holds the entry just stored. */
  function Limit(maxSize: nat): nat {
    Max(1, maxSize)
  }

  // ---------- A hit is always current ----------

  /** Over every run: whatever is cached under a hash is what was last stored under it. */
  lemma {:induction false} HitReturnsLastPut(ops: seq<Op>, maxSize: nat, h: nat)
    requires h in Run(ops, maxSize).cache
    ensures LastPut(ops, h) == Some(Run(ops, maxSize).cache[h])
  {
    if ops != [] && !Uses(ops[|ops| - 1], h) && !ops[|ops| - 1].Clear? {
      HitReturnsLastPut(ops[..|ops| - 1], maxSize, h);
    } else if ops != [] && ops[|ops| - 1].Get? {
      HitReturnsLastPut(ops[..|ops| - 1], maxSize, h);
    }
  }

  // ---------- The list of hashes ----------

  lemma {:induction false} WithoutAt(order: seq<nat>, h: nat, pos: nat)
    requires pos < |order| && order[pos] == h && forall k :: 0 <= k < pos ==> order[k] != h
    ensures Without(order, h) == order[..pos] + order[pos + 1..]
  {
    if pos > 0 {
      WithoutAt(order[1..], h, pos - 1);
      assert order[..pos] == [order[0]] + order[1..][..pos - 1];
      assert order[pos + 1..] == order[1..][pos..];
    }
  }

  /** Where the removed occurrence was. */
  lemma WithoutSplits(order: seq<nat>, h: nat) returns (pos: nat)
    requires h in order
    ensures pos < |order| && order[pos] == h
    ensures Without(order, h) == order[..pos] + order[pos + 1..]
  {
    pos := 0;
    while order[pos] != h
      invariant pos < |order| && forall k :: 0 <= k < pos ==> order[k] != h
      decreases |order| - pos
    {
      pos := pos + 1;
    }
    WithoutAt(order, h, pos);
  }

  lemma {:induction false} WithoutAbsent(order: seq<nat>, h: nat)
    requires h !in order
    ensures Without(order, h) == order
  {
    if order != [] { WithoutAbsent(order[1..], h); }
  }

  lemma TouchKeeps(order: seq<nat>, h: nat)
    requires h in order
    ensures |Without(order, h) + [h]| == |order|
    ensures Elements(Without(order, h) + [h]) == Elements(order)
  {
    var pos := WithoutSplits(order, h);
    assert order == order[..pos] + [h] + order[pos + 1..];
  }

  // ---------- How far the cache can outgrow its limit ----------

  /** The list has every cached hash, and at most `extra` entries beyond what the limit allows. */
  ghost predicate Bounded(s: CacheState, maxSize: nat, extra: nat) {
    && s.cache.Keys <= Elements(s.order)
    && Max(|s.cache|, Limit(maxSize)) + |s.order| <= |s.cache| + Limit(maxSize) + extra
  }

  lemma EvictedSize(s: CacheState)
    ensures |Evicted(s).cache| == |s.cache| - if s.order != [] && s.order[0] in s.cache then 1 else 0
  {
    if s.order != [] {
      assert Evicted(s).cache.Keys == s.cache.Keys - {s.order[0]};
      assert |Evicted(s).cache.Keys| == |Evicted(s).cache| && |s.cache.Keys| == |s.cache|;
    }
  }

  lemma StoredSize(s: CacheState, h: nat, t: Traversal)
    ensures |Stored(s, h, t).cache| == |s.cache| + if h in s.cache then 0 else 1
  {
    assert s.cache[h := t].Keys == s.cache.Keys + {h};
    assert |s.cache[h := t].Keys| == |s.cache[h := t]| && |s.cache.Keys| == |s.cache|;
  }

  lemma EvictKeepsListed(s: CacheState)
    requires s.cache.Keys <= Elements(s.order) && s.order != []
    ensures Evicted(s).cache.Keys <= Elements(Evicted(s).order)
  {
    var e := Evicted(s);
    forall k | k in e.cache.Keys ensures k in Elements(e.order) {
      assert k in s.order && k != s.order[0];
      var i :| 0 <= i < |s.order| && s.order[i] == k;
      assert e.order[i - 1] == k;
    }
  }

  lemma StoreKeepsListed(s: CacheState, h: nat, t: Traversal)
    requires s.cache.Keys <= Elements(s.order)
    ensures Stored(s, h, t).cache.Keys <= Elements(Stored(s, h, t).order)
  {
    ElementsAppend(s.order, h);
  }

  lemma StepKeepsBounded(s: CacheState, op: Op, maxSize: nat, extra: nat)
    requires Bounded(s, maxSize, extra)
    ensures Bounded(Step(s, op, maxSize), maxSize, extra + if op.Put? && op.hash in s.cache then 1 else 0)
  {
    match op
    case Get(h) =>
      if h in s.cache { TouchKeeps(s.order, h); }
    case Put(h, t) =>
      if MustEvict(s, h, maxSize) && s.order != [] {
        EvictedSize(s);
        EvictKeepsListed(s);
        StoredSize(Evicted(s), h, t);
        StoreKeepsListed(Evicted(s), h, t);
      } else {
        if s.order == [] { NoElements(s.order); assert s.cache.Keys == {}; assert s.cache == map[]; }
        StoredSize(s, h, t);
        StoreKeepsListed(s, h, t);
      }
    case Clear =>
  }

  lemma {:induction false} RunKeepsBounded(ops: seq<Op>, maxSize: nat)
    ensures Bounded(Run(ops, maxSize), maxSize, RePuts(ops, maxSize))
  {
    if ops != [] {
      var before := ops[..|ops| - 1];
      RunKeepsBounded(before, maxSize);
      StepKeepsBounded(Run(before, maxSize), ops[|ops| - 1], maxSize, RePuts(before, maxSize));
    }
  }

  /** Over every run: the cache outgrows its limit by at most one entry for each time a cached hash was stored again. */
  lemma SizeBound(ops: seq<Op>, maxSize: nat)
    ensures |Run(ops, maxSize).cache| <= Limit(maxSize) + RePuts(ops, maxSize)
  {
    RunKeepsBounded(ops, maxSize);
    var s := Run(ops, maxSize);
    assert |s.cache.Keys| == |s.cache|;
    Pigeonhole(s.cache.Keys, s.order);
  }

  /** Storing under `h` replaces an entry, finds room, or evicts an entry that is still there. */
  predicate FitsIn(s: CacheState, h: nat, maxSize: nat) {
    h in s.cache || |s.cache| < Limit(maxSize) || (s.order != [] && s.order[0] in s.cache)
  }

  /** A cache within its limit stays within it exactly when storing replaces, finds room or really evicts. */
  lemma StepWithinLimit(s: CacheState, op: Op, maxSize: nat)
    requires |s.cache| <= Limit(maxSize)
    ensures |Step(s, op, maxSize).cache| <= Limit(maxSize) <==> (op.Put? ==> FitsIn(s, op.hash, maxSize))
  {
    if op.Put? {
      hide Evicted, Stored;
      EvictedSize(s);
      EvictedLacks(s, op.hash);
      StoredSize(if MustEvict(s, op.hash, maxSize) then Evicted(s) else s, op.hash, op.traversal);
    }
  }

  lemma EvictedLacks(s: CacheState, h: nat)
    ensures h !in s.cache ==> h !in Evicted(s).cache
  {
  }

  ghost predicate WithinLimit(ops: seq<Op>, k: nat, maxSize: nat)
    requires k <= |ops|
  {
    |Run(ops[..k], maxSize).cache| <= Limit(maxSize)
  }

  ghost predicate PutFits(ops: seq<Op>, k: nat, maxSize: nat)
    requires k < |ops|
  {
    ops[k].Put? ==> FitsIn(Run(ops[..k], maxSize), ops[k].hash, maxSize)
  }

  lemma NextWithinLimit(ops: seq<Op>, k: nat, maxSize: nat)
    requires k < |ops| && WithinLimit(ops, k, maxSize)
    ensures WithinLimit(ops, k + 1, maxSize) <==> PutFits(ops, k, maxSize)
  {
    assert ops[..k + 1][..k] == ops[..k];
    StepWithinLimit(Run(ops[..k], maxSize), ops[k], maxSize);
  }

  lemma {:induction false} FitsUpTo(ops: seq<Op>, k: nat, maxSize: nat)
    requires k <= |ops| && forall j :: 0 <= j < |ops| ==> PutFits(ops, j, maxSize)
    ensures WithinLimit(ops, k, maxSize)
  {
    if k > 0 {
      FitsUpTo(ops, k - 1, maxSize);
      NextWithinLimit(ops, k - 1, maxSize);
    }
  }

  /**
   * A run stays within the limit throughout exactly when no new hash is stored in a full cache whose list begins
   * with a hash that is no longer cached.
   */
  lemma RunWithinLimit(ops: seq<Op>, maxSize: nat)
    ensures (forall k :: 0 <= k <= |ops| ==> WithinLimit(ops, k, maxSize)) <==>
            (forall k :: 0 <= k < |ops| ==> PutFits(ops, k, maxSize))
  {
    hide WithinLimit, PutFits;
    if forall k :: 0 <= k <= |ops| ==> WithinLimit(ops, k, maxSize) {
      forall k | 0 <= k < |ops| ensures PutFits(ops, k, maxSize) {
        assert WithinLimit(ops, k, maxSize) && WithinLimit(ops, k + 1, maxSize);
        NextWithinLimit(ops, k, maxSize);
      }
    }
    if forall k :: 0 <= k < |ops| ==> PutFits(ops, k, maxSize) {
      forall k | 0 <= k <= |ops| ensures WithinLimit(ops, k, maxSize) { FitsUpTo(ops, k, maxSize); }
    }
  }

  /** Storing twice under a cached hash leaves a stale front, and the cache then outgrows its limit. */
  lemma RePutOutgrowsTheLimit(a: nat, b: nat, c: nat, t: Traversal)
    requires a != b && b != c && a != c
    ensures |Run([Put(a, t), Put(a, t), Put(b, t), Put(c, t)], 1).cache| == 2
  {
    hide Run, Step;
    RunFour(Put(a, t), Put(a, t), Put(b, t), Put(c, t), 1);
    StoreInRoom(a, t);
    StoreAgain(a, t);
    StoreInPlaceOf(a, b, t);
    StoreBeside(a, b, c, t);
  }

  lemma StoreInRoom(a: nat, t: Traversal)
    ensures Step(EMPTY, Put(a, t), 1) == CacheState(map[a := t], [a])
  {
  }

  lemma StoreAgain(a: nat, t: Traversal)
    ensures Step(CacheState(map[a := t], [a]), Put(a, t), 1) == CacheState(map[a := t], [a, a])
  {
  }

  lemma StoreInPlaceOf(a: nat, b: nat, t: Traversal)
    requires a != b
    ensures Step(CacheState(map[a := t], [a, a]), Put(b, t), 1) == CacheState(map[b := t], [a, b])
  {
    assert map[a := t] - {a} == map[];
  }

  lemma StoreBeside(a: nat, b: nat, c: nat, t: Traversal)
    requires a != b && b != c && a != c
    ensures Step(CacheState(map[b := t], [a, b]), Put(c, t), 1) == CacheState(map[b := t, c := t], [b, c])
    ensures |map[b := t, c := t]| == 2
  {
    assert map[b := t] - {a} == map[b := t];
    assert map[b := t, c := t].Keys == {b, c};
  }

  lemma RunFour(p: Op, q: Op, r: Op, s: Op, maxSize: nat)
    ensures Run([p, q, r, s], maxSize) == Step(Step(Step(Step(EMPTY, p, maxSize), q, maxSize), r, maxSize), s, maxSize)
  {
    hide Step;
    assert [p, q, r, s] == [] + [p] + [q] + [r] + [s];
    RunOne([], p, maxSize);
    RunOne([] + [p], q, maxSize);
    RunOne([] + [p] + [q], r, maxSize);
    RunOne([] + [p] + [q] + [r], s, maxSize);
  }

  lemma RunOne(ops: seq<Op>, op: Op, maxSize: nat)
    ensures Run(ops + [op], maxSize) == Step(Run(ops, maxSize), op, maxSize)
  {
    assert (ops + [op])[..|ops|] == ops;
  }

  // ---------- Least recently used ----------

  /** The list has each cached hash exactly once and nothing else. */
  ghost predicate Tidy(s: CacheState) {
    Elements(s.order) == s.cache.Keys && NoDup(s.order)
  }

  lemma EvictKeepsTidy(s: CacheState)
    requires Tidy(s)
    ensures Tidy(Evicted(s))
  {
    if s.order != [] {
      var e := Evicted(s);
      assert s.order == [s.order[0]] + e.order;
      assert s.order[0] !in e.order;
      assert Elements(s.order) == {s.order[0]} + Elements(e.order);
      assert e.cache.Keys == s.cache.Keys - {s.order[0]};
    }
  }

  lemma StoreKeepsTidyExactly(s: CacheState, h: nat, t: Traversal)
    requires Tidy(s)
    ensures Tidy(Stored(s, h, t)) <==> h !in s.cache
  {
    var r := Stored(s, h, t);
    ElementsAppend(s.order, h);
    assert h in s.cache <==> h in Elements(s.order);
    if h in s.cache {
      var i :| 0 <= i < |s.order| && s.order[i] == h;
      assert r.order[i] == h && r.order[|s.order|] == h;
    } else {
      forall i, j | 0 <= i < j < |r.order| ensures r.order[i] != r.order[j] {
        assert r.order[i] == s.order[i] && s.order[i] in s.order;
      }
    }
  }

  /** Storing keeps the list tidy exactly when the hash was not cached. */
  lemma {:induction false} PutKeepsTidyExactly(s: CacheState, h: nat, t: Traversal, maxSize: nat)
    requires Tidy(s)
    ensures Tidy(Step(s, Put(h, t), maxSize)) <==> h !in s.cache
  {
    hide Tidy;
    EvictKeepsTidy(s);
    StoreKeepsTidyExactly(if MustEvict(s, h, maxSize) then Evicted(s) else s, h, t);
  }

  /** The list runs from the least to the most recently used hash. */
  ghost predicate ByRecency(order: seq<nat>, ops: seq<Op>) {
    forall i, j :: 0 <= i < j < |order| ==> LastUse(ops, order[i]) < LastUse(ops, order[j])
  }

  lemma ByRecencyIsNoDup(order: seq<nat>, ops: seq<Op>)
    requires ByRecency(order, ops)
    ensures NoDup(order)
  {
  }

  /** A list without `h` keeps its order, and `h` used last goes to its end. */
  lemma UseLast(order: seq<nat>, ops: seq<Op>, op: Op, h: nat)
    requires ByRecency(order, ops) && h !in order && Uses(op, h)
    ensures ByRecency(order + [h], ops + [op])
  {
    var all := order + [h];
    assert (ops + [op])[..|ops|] == ops;
    forall i, j | 0 <= i < j < |all| ensures LastUse(ops + [op], all[i]) < LastUse(ops + [op], all[j]) {
      assert all[i] == order[i] && order[i] != h;
      assert j < |order| ==> all[j] == order[j] && order[j] != h;
    }
  }

  lemma Untouched(order: seq<nat>, ops: seq<Op>, op: Op)
    requires ByRecency(order, ops) && forall h :: h in order ==> !Uses(op, h)
    ensures ByRecency(order, ops + [op])
  {
    assert (ops + [op])[..|ops|] == ops;
    forall i, j | 0 <= i < j < |order| ensures LastUse(ops + [op], order[i]) < LastUse(ops + [op], order[j]) {
      assert order[i] in order && order[j] in order;
    }
  }

  lemma WithoutByRecency(order: seq<nat>, ops: seq<Op>, h: nat)
    requires ByRecency(order, ops) && h in order
    ensures ByRecency(Without(order, h), ops) && h !in Without(order, h)
  {
    var pos := WithoutSplits(order, h);
    var rest := Without(order, h);
    forall i | 0 <= i < |rest| ensures rest[i] == (if i < pos then order[i] else order[i + 1]) && rest[i] != h {}
  }

  lemma {:induction false} StepKeepsRecency(s: CacheState, ops: seq<Op>, op: Op, maxSize: nat)
    requires Tidy(s) && ByRecency(s.order, ops)
    requires op.Put? ==> op.hash !in s.cache
    ensures Tidy(Step(s, op, maxSize)) && ByRecency(Step(s, op, maxSize).order, ops + [op])
  {
    match op
    case Get(h) =>
      if h in s.cache {
        assert h in s.order;
        WithoutByRecency(s.order, ops, h);
        UseLast(Without(s.order, h), ops, op, h);
        TouchKeeps(s.order, h);
        ByRecencyIsNoDup(Touched(s, h).order, ops + [op]);
      } else {
        forall k | k in s.order ensures !Uses(op, k) { assert k in Elements(s.order); }
        Untouched(s.order, ops, op);
      }
    case Put(h, t) =>
      PutKeepsTidyExactly(s, h, t, maxSize);
      var e := if MustEvict(s, h, maxSize) then Evicted(s) else s;
      assert h !in Elements(s.order);
      assert ByRecency(e.order, ops) && h !in e.order;
      UseLast(e.order, ops, op, h);
    case Clear =>
      NoElements(EMPTY.order);
  }

  /**
   * Over every run that stores only what is not cached: the list has exactly the cached hashes, without duplicates,
   * from least to most recently used.
   */
  lemma {:induction false} OrderIsRecency(ops: seq<Op>, maxSize: nat)
    requires RePuts(ops, maxSize) == 0
    ensures Tidy(Run(ops, maxSize)) && ByRecency(Run(ops, maxSize).order, ops)
  {
    if ops == [] {
      NoElements(EMPTY.order);
    } else {
      var before, op := ops[..|ops| - 1], ops[|ops| - 1];
      OrderIsRecency(before, maxSize);
      StepKeepsRecency(Run(before, maxSize), before, op, maxSize);
      assert before + [op] == ops;
    }
  }

  /** What a full cache gives up is the one entry used longer ago than every other; everything else stays. */
  lemma {:induction false} EvictsLeastRecentlyUsed(ops: seq<Op>, h: nat, t: Traversal, maxSize: nat)
    requires RePuts(ops, maxSize) == 0 && maxSize > 0
    requires MustEvict(Run(ops, maxSize), h, maxSize)
    ensures var before, after := Run(ops, maxSize).cache, Run(ops + [Put(h, t)], maxSize).cache;
            exists gone :: gone in before && after == (before - {gone})[h := t] &&
              forall k :: k in before && k != gone ==> LastUse(ops, gone) < LastUse(ops, k)
  {
    var s := Run(ops, maxSize);
    OrderIsRecency(ops, maxSize);
    assert s.order == [] ==> Elements(s.order) == {} && s.cache.Keys == {};
    assert |s.cache.Keys| == |s.cache|;
    var gone := s.order[0];
    assert gone in Elements(s.order);
    assert (ops + [Put(h, t)])[..|ops|] == ops;
    forall k | k in s.cache && k != gone ensures LastUse(ops, gone) < LastUse(ops, k) {
      assert k in Elements(s.order);
      var i :| 0 <= i < |s.order| && s.order[i] == k;
    }
  }

  /** Storing keeps every entry exactly when the hash was cached, a slot was free, or there was nothing to give up. */
  lemma {:induction false} PutKeepsEntriesExactly(s: CacheState, h: nat, t: Traversal, maxSize: nat)
    requires Tidy(s)
    ensures var after := Step(s, Put(h, t), maxSize).cache;
            && h in after && after[h] == t
            && (s.cache.Keys <= after.Keys <==> h in s.cache || |s.cache| < maxSize || |s.cache| == 0)
            && forall k :: k in after && k != h ==> k in s.cache && after[k] == s.cache[k]
  {
    if s.order != [] { assert s.order[0] in Elements(s.order); }
    if s.order == [] { NoElements(s.order); }
    assert |s.cache.Keys| == |s.cache|;
  }
}
