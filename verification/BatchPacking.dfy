/** How a mempool worker packs the transactions waiting in its channel into one batch. */
module BatchPacking {
  import opened Wrappers
  import opened Collections
  import opened ByteStrings

  datatype Error = ChannelDisconnected

  datatype Transaction = Transaction(digest: Bytes, size: nat)

  function Size(txs: seq<Transaction>): nat {
    if txs == [] then 0 else Size(txs[..|txs| - 1]) + txs[|txs| - 1].size
  }

  /** Within both limits. */
  predicate Fits(txs: seq<Transaction>, maxCount: nat, maxBytes: nat) {
    |txs| <= maxCount && Size(txs) <= maxBytes
  }

  /** The first `n` waiting transactions fit, and no longer prefix does. */
  ghost predicate LongestPrefix(queue: seq<Transaction>, n: nat, maxCount: nat, maxBytes: nat) {
    && n <= |queue| && Fits(queue[..n], maxCount, maxBytes)
    && forall m :: n < m <= |queue| ==> !Fits(queue[..m], maxCount, maxBytes)
  }

  lemma SizeAppend(txs: seq<Transaction>, tx: Transaction)
    ensures Size(txs + [tx]) == Size(txs) + tx.size
  {
    assert (txs + [tx])[..|txs|] == txs;
  }

  lemma {:induction false} SizeGrows(txs: seq<Transaction>, n: nat, m: nat)
    requires n <= m <= |txs|
    ensures Size(txs[..n]) <= Size(txs[..m])
    decreases m - n
  {
    if n < m {
      TakeOneMore(txs, m - 1);
      SizeAppend(txs[..m - 1], txs[m - 1]);
      SizeGrows(txs, n, m - 1);
    }
  }

  /** Once the next transaction does not fit, no longer prefix does. */
  lemma NoLongerPrefix(queue: seq<Transaction>, n: nat, maxCount: nat, maxBytes: nat)
    requires n < |queue| && Fits(queue[..n], maxCount, maxBytes) && !Fits(queue[..n + 1], maxCount, maxBytes)
    ensures LongestPrefix(queue, n, maxCount, maxBytes)
  {
    forall m | n < m <= |queue| ensures !Fits(queue[..m], maxCount, maxBytes) { SizeGrows(queue, n + 1, m); }
  }

  // ---------- Drawing from the channel ----------

  /** `txs` has been drawn, within both limits, and `rest` still waits. */
  ghost predicate Drawn(queue: seq<Transaction>, txs: seq<Transaction>, rest: seq<Transaction>, maxCount: nat,
                        maxBytes: nat) {
    queue == txs + rest && Fits(txs, maxCount, maxBytes)
  }

  lemma NothingDrawn(queue: seq<Transaction>, maxCount: nat, maxBytes: nat)
    ensures Drawn(queue, [], queue, maxCount, maxBytes) && Size([]) == 0
  {
  }

  lemma {:induction false} DrawnFits(queue: seq<Transaction>, txs: seq<Transaction>, rest: seq<Transaction>,
                                     maxCount: nat, maxBytes: nat)
    requires Drawn(queue, txs, rest, maxCount, maxBytes)
    ensures queue == txs + rest && Fits(txs, maxCount, maxBytes) && |txs| <= |queue| && Size(txs) <= Size(queue)
    ensures rest == [] ==> queue == txs
  {
    hide Size;
    assert queue[..|txs|] == txs && queue[..|queue|] == queue;
    SizeGrows(queue, |txs|, |queue|);
  }

  /** Where the drawn part ends in the queue, and what the queue's prefix one longer is. */
  lemma NextPrefix(queue: seq<Transaction>, txs: seq<Transaction>, rest: seq<Transaction>)
    requires queue == txs + rest
    ensures queue[..|txs|] == txs
    ensures rest != [] ==> |txs| < |queue| && rest[0] in queue && queue[..|txs| + 1] == txs + [rest[0]]
    ensures rest != [] ==> queue == txs + [rest[0]] + rest[1..]
  {
    hide Size;
    if rest != [] { assert rest == [rest[0]] + rest[1..] && queue[|txs|] == rest[0]; }
  }

  lemma Extend(txs: seq<Transaction>, tx: Transaction, maxCount: nat, maxBytes: nat)
    requires Fits(txs, maxCount, maxBytes)
    ensures Size(txs + [tx]) == Size(txs) + tx.size
    ensures Fits(txs + [tx], maxCount, maxBytes) == (|txs| < maxCount && Size(txs) + tx.size <= maxBytes)
  {
    hide Size;
    SizeAppend(txs, tx);
  }

  lemma DrawOne(queue: seq<Transaction>, txs: seq<Transaction>, rest: seq<Transaction>, maxCount: nat, maxBytes: nat)
    requires Drawn(queue, txs, rest, maxCount, maxBytes) && rest != [] && |txs| < maxCount
    ensures Size(txs + [rest[0]]) == Size(txs) + rest[0].size
    ensures Size(txs) + rest[0].size <= maxBytes ==> Drawn(queue, txs + [rest[0]], rest[1..], maxCount, maxBytes)
    ensures Size(txs) + rest[0].size > maxBytes ==>
              && !Fits(txs + [rest[0]], maxCount, maxBytes) && LongestPrefix(queue, |txs|, maxCount, maxBytes)
              && queue == txs + [rest[0]] + rest[1..] && Size(queue) > maxBytes
  {
    hide Size, Fits, LongestPrefix;
    NextPrefix(queue, txs, rest);
    Extend(txs, rest[0], maxCount, maxBytes);
    if Size(txs) + rest[0].size > maxBytes {
      NoLongerPrefix(queue, |txs|, maxCount, maxBytes);
      assert queue[..|queue|] == queue;
      SizeGrows(queue, |txs| + 1, |queue|);
    }
  }

  /** A full batch: the next transaction, having a positive size, would break a limit. */
  lemma {:induction false} DrawnFull(queue: seq<Transaction>, txs: seq<Transaction>, rest: seq<Transaction>,
                                     maxCount: nat, maxBytes: nat)
    requires Drawn(queue, txs, rest, maxCount, maxBytes)
    requires rest == [] || |txs| >= maxCount || Size(txs) >= maxBytes
    requires forall t :: t in queue ==> t.size > 0
    ensures LongestPrefix(queue, |txs|, maxCount, maxBytes)
  {
    hide Size, Fits;
    NextPrefix(queue, txs, rest);
    if rest != [] {
      Extend(txs, rest[0], maxCount, maxBytes);
      NoLongerPrefix(queue, |txs|, maxCount, maxBytes);
    }
  }

  class Worker {
    /** Transactions waiting in the channel, oldest first. */
    var channel: seq<Transaction>
    /** Whether some sender still holds the channel. */
    var connected: bool
    /** The mempool's own queue of parked transactions. */
    var pendingTransactions: seq<Transaction>

    constructor ()
      ensures channel == [] && connected && pendingTransactions == []
    {
      channel, connected, pendingTransactions := [], true, [];
    }

    /**
     * Every waiting transaction of positive size: the batch is the longest prefix of the channel within both limits.
     * At most one more is taken and parked, the first that would exceed the byte limit; the rest stays in place.
     * A drained channel whose senders are gone is an error, and what had been collected is given up with it.
     */
    method CollectTransactions(maxCount: nat, maxBytes: nat) returns (r: Result<seq<Transaction>, Error>)
      modifies this`channel, this`pendingTransactions
      ensures r.Ok? ==>
                && |old(pendingTransactions)| <= |pendingTransactions| <= |old(pendingTransactions)| + 1
                && var parked := pendingTransactions[..|pendingTransactions| - |old(pendingTransactions)|];
                && pendingTransactions == parked + old(pendingTransactions)
                && old(channel) == r.value + parked + channel
                && Fits(r.value, maxCount, maxBytes)
                && (parked != [] ==> !Fits(r.value + parked, maxCount, maxBytes))
      ensures r.Ok? && (forall t :: t in old(channel) ==> t.size > 0) ==>
                LongestPrefix(old(channel), |r.value|, maxCount, maxBytes)
      ensures r.Err? <==> !connected && |old(channel)| < maxCount && Size(old(channel)) < maxBytes
      ensures r.Err? ==> channel == [] && pendingTransactions == old(pendingTransactions)
    {
      hide Drawn, LongestPrefix, Size;
      ghost var queue := channel;
      NothingDrawn(queue, maxCount, maxBytes);
      var transactions: seq<Transaction> := [];
      var totalSize := 0;
      while |transactions| < maxCount && totalSize < maxBytes
        invariant Drawn(queue, transactions, channel, maxCount, maxBytes) && totalSize == Size(transactions)
        invariant pendingTransactions == old(pendingTransactions)
        decreases |channel|
      {
        DrawnFits(queue, transactions, channel, maxCount, maxBytes);
        if channel == [] {
          if connected { break; }
          return Err(ChannelDisconnected);
        }
        var tx := channel[0];
        DrawOne(queue, transactions, channel, maxCount, maxBytes);
        channel := channel[1..];
        if totalSize + tx.size > maxBytes {
          pendingTransactions := [tx] + pendingTransactions;
          return Ok(transactions);
        }
        totalSize := totalSize + tx.size;
        transactions := transactions + [tx];
      }
      DrawnFits(queue, transactions, channel, maxCount, maxBytes);
      if forall t :: t in queue ==> t.size > 0 { DrawnFull(queue, transactions, channel, maxCount, maxBytes); }
      r := Ok(transactions);
    }
  }
}
