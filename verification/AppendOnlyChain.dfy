/** The abstract ledger both finality components implement: a chain of digests that only grows at its end. */
module AppendOnlyChain {
  import opened ByteStrings

  type Digest = Bytes

  /** Sixty-four zero bytes: what the first snapshot names as its predecessor. */
  function ZeroDigest(): (digest: Digest)
    ensures |digest| == 64 && forall i :: 0 <= i < |digest| ==> digest[i] == 0
  {
    seq(64, i => 0 as byte)
  }

  datatype Link = Link(digest: Digest, previous: Digest)

  function Tip(chain: seq<Link>): Digest {
    if chain == [] then ZeroDigest() else chain[|chain| - 1].digest
  }

  /** Every link names the digest just before it. */
  ghost predicate Linked(chain: seq<Link>) {
    forall i :: 0 <= i < |chain| ==> chain[i].previous == Tip(chain[..i])
  }

  ghost predicate ChainStep(before: seq<Link>, after: seq<Link>) {
    after == before || (|after| == |before| + 1 && before <= after && after[|before|].previous == Tip(before))
  }

  lemma StepKeepsLinked(before: seq<Link>, after: seq<Link>)
    requires Linked(before) && ChainStep(before, after)
    ensures Linked(after) && before <= after
  {
    forall i | 0 <= i < |after| ensures after[i].previous == Tip(after[..i]) {
      assert after[..i] == before[..i];
      if i == |before| { assert before[..i] == before; }
    }
  }

  /** Over a whole behaviour the chain stays linked and every earlier chain is a prefix of every later one. */
  lemma {:induction false} BehaviourAppends(chains: seq<seq<Link>>, i: nat, j: nat)
    requires i <= j < |chains| && Linked(chains[i])
    requires forall k :: 0 <= k < |chains| - 1 ==> ChainStep(chains[k], chains[k + 1])
    ensures Linked(chains[j]) && chains[i] <= chains[j]
    decreases j - i
  {
    if i < j {
      assert ChainStep(chains[i], chains[i + 1]);
      StepKeepsLinked(chains[i], chains[i + 1]);
      BehaviourAppends(chains, i + 1, j);
    }
  }

  /** Equal digests come from equal links, and no link has the zero digest. */
  ghost predicate CollisionFree(a: seq<Link>, b: seq<Link>) {
    && (forall i, j :: 0 <= i < |a| && 0 <= j < |b| && a[i].digest == b[j].digest ==> a[i] == b[j])
    && (forall i :: 0 <= i < |a| ==> a[i].digest != ZeroDigest())
    && (forall j :: 0 <= j < |b| ==> b[j].digest != ZeroDigest())
  }

  lemma CollisionFreePrefix(a: seq<Link>, b: seq<Link>, m: nat, n: nat)
    requires CollisionFree(a, b) && m <= |a| && n <= |b|
    ensures CollisionFree(a[..m], b[..n])
  {
  }

  /** One digest pins down the whole history behind it. */
  lemma {:induction false} TipFixesHistory(a: seq<Link>, b: seq<Link>)
    requires Linked(a) && Linked(b) && CollisionFree(a, b) && Tip(a) == Tip(b)
    ensures a == b
    decreases |a|
  {
    if a != [] && b != [] {
      var m, n := |a| - 1, |b| - 1;
      assert a[m] == b[n];
      assert Tip(a[..m]) == Tip(b[..n]);
      LinkedPrefix(a, m);
      LinkedPrefix(b, n);
      CollisionFreePrefix(a, b, m, n);
      hide Linked, CollisionFree, Tip;
      TipFixesHistory(a[..m], b[..n]);
      assert a == a[..m] + [a[m]] && b == b[..n] + [b[n]];
    }
  }

  lemma LinkedPrefix(chain: seq<Link>, n: nat)
    requires Linked(chain) && n <= |chain|
    ensures Linked(chain[..n])
  {
    forall i | 0 <= i < n ensures chain[..n][i].previous == Tip(chain[..n][..i]) {
      assert chain[..n][..i] == chain[..i];
    }
  }
}
