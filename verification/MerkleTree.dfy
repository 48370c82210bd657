/** The level-by-level Merkle reduction over a hash function `h`. */
module MerkleTree {
  import opened Wrappers
  import opened ByteStrings

  type Hash = Bytes -> Bytes

  /** What is hashed for the `i`-th pair; a last node without a partner is hashed alone. */
  function PairInput(level: seq<Bytes>, i: nat): Bytes
    requires 2 * i < |level|
  {
    if 2 * i + 1 < |level| then level[2 * i] + level[2 * i + 1] else level[2 * i]
  }

  function NextLevel(h: Hash, level: seq<Bytes>): (next: seq<Bytes>)
    ensures |next| == (|level| + 1) / 2
  {
    seq((|level| + 1) / 2, i requires 0 <= i < (|level| + 1) / 2 => h(PairInput(level, i)))
  }

  function Root(h: Hash, level: seq<Bytes>): Bytes
    requires level != []
    decreases |level|
  {
    if |level| == 1 then level[0] else Root(h, NextLevel(h, level))
  }

  /** Two different inputs with one hash. */
  ghost predicate Collides(h: Hash, pair: (Bytes, Bytes)) {
    pair.0 != pair.1 && h(pair.0) == h(pair.1)
  }

  ghost predicate SameLength(level: seq<Bytes>, length: nat) {
    forall i :: 0 <= i < |level| ==> |level[i]| == length
  }

  /** A difference between two levels shows in the input of the pair it belongs to. */
  lemma DifferenceShows(a: seq<Bytes>, b: seq<Bytes>, length: nat, j: nat)
    requires |a| == |b| && SameLength(a, length) && SameLength(b, length)
    requires j < |a| && a[j] != b[j]
    ensures PairInput(a, j / 2) != PairInput(b, j / 2)
  {
    var i := j / 2;
    var x, y := PairInput(a, i), PairInput(b, i);
    assert x[..length] == a[2 * i] && y[..length] == b[2 * i];
    if 2 * i + 1 < |a| {
      assert x[length..] == a[2 * i + 1] && y[length..] == b[2 * i + 1];
    }
  }

  lemma FirstDifference(a: seq<Bytes>, b: seq<Bytes>) returns (j: nat)
    requires |a| == |b| && a != b
    ensures j < |a| && a[j] != b[j]
  {
    j :| 0 <= j < |a| && a[j] != b[j];
  }

  lemma NextLevelWidth(h: Hash, level: seq<Bytes>, width: nat)
    requires forall x :: |h(x)| == width
    ensures SameLength(NextLevel(h, level), width)
  {
    forall i | 0 <= i < |NextLevel(h, level)| ensures |NextLevel(h, level)[i]| == width {
      assert NextLevel(h, level)[i] == h(PairInput(level, i));
    }
  }

  /**
   * A root binds its leaves: equally many leaves of one length with the same root are the same leaves,
   * or else two different inputs with the same hash have been found.
   */
  lemma {:induction false} RootBindsLeaves(h: Hash, a: seq<Bytes>, b: seq<Bytes>, length: nat, width: nat)
    returns (collision: Option<(Bytes, Bytes)>)
    requires forall x :: |h(x)| == width
    requires a != [] && |a| == |b| && SameLength(a, length) && SameLength(b, length)
    requires Root(h, a) == Root(h, b)
    ensures collision.None? ==> a == b
    ensures collision.Some? ==> Collides(h, collision.value)
    decreases |a|
  {
    collision := None;
    if |a| > 1 {
      NextLevelWidth(h, a, width);
      NextLevelWidth(h, b, width);
      collision := RootBindsLeaves(h, NextLevel(h, a), NextLevel(h, b), width, width);
      if collision.None? && a != b {
        var j := FirstDifference(a, b);
        DifferenceShows(a, b, length, j);
        assert NextLevel(h, a)[j / 2] == NextLevel(h, b)[j / 2];
        collision := Some((PairInput(a, j / 2), PairInput(b, j / 2)));
      }
    }
  }

  /** The loop halves the level, rounding up, until one node is left. */
  method ComputeRoot(h: Hash, leaves: seq<Bytes>) returns (root: Option<Bytes>)
    ensures root == if leaves == [] then None else Some(Root(h, leaves))
  {
    if leaves == [] { return None; }
    var level := leaves;
    while |level| > 1
      invariant level != [] && Root(h, level) == Root(h, leaves)
      decreases |level|
    {
      level := NextLevel(h, level);
    }
    root := Some(level[0]);
  }

  // ---------- What a level is made of ----------

  /** Two neighbours are hashed together in their order, a last node alone, and pairs do not see each other. */
  lemma NextLevelExactly(h: Hash, x: Bytes, y: Bytes, pairs: seq<Bytes>, rest: seq<Bytes>)
    requires |pairs| % 2 == 0
    ensures NextLevel(h, []) == [] && NextLevel(h, [x]) == [h(x)] && NextLevel(h, [x, y]) == [h(x + y)]
    ensures NextLevel(h, pairs + rest) == NextLevel(h, pairs) + NextLevel(h, rest)
  {
    assert NextLevel(h, [x])[0] == h(PairInput([x], 0)) && NextLevel(h, [x, y])[0] == h(PairInput([x, y], 0));
    var all := pairs + rest;
    var n := |pairs| / 2;
    assert |NextLevel(h, pairs)| == n;
    forall i | 0 <= i < |NextLevel(h, all)|
      ensures NextLevel(h, all)[i] == (NextLevel(h, pairs) + NextLevel(h, rest))[i]
    {
      if i < n {
        assert PairInput(all, i) == PairInput(pairs, i);
      } else {
        assert PairInput(all, i) == PairInput(rest, i - n);
      }
    }
  }

  /** The root of one node is the node, and a longer level has the root of the level above it. */
  lemma RootExactly(h: Hash, x: Bytes, y: Bytes, level: seq<Bytes>)
    requires |level| > 1
    ensures Root(h, [x]) == x && Root(h, [x, y]) == h(x + y) && Root(h, level) == Root(h, NextLevel(h, level))
  {
    NextLevelExactly(h, x, y, [], level);
  }
}
