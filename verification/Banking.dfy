/**
 The rate-limited transmitter of `qos-core/src/banking.rs`. Time is counted in
 timer ticks; `ticksPerMs` of them make a millisecond. What was pushed to the
 sigverify channel is recorded as a sequence of batches.
 */
module Banking {
  import opened Wrappers
  import opened Basics
  import opened Packets
  import opened Counters
  import opened PriorityQueue
  import Recency
  import Lru

  const SEND_INTERVAL_MS: nat := 100

  /** One non-empty transmission: when its interval check and its last push happened. */
  datatype Batch = Batch(start: nat, finish: nat, txs: seq<Scored>)

  /** `target_pps * 100 / 1000` in 64-bit arithmetic. */
  function MaxSend(targetPps: nat): nat {
    targetPps * SEND_INTERVAL_MS % U64 / 1000
  }

  /** The limit is a tenth of the target rate when the product fits, and never more. */
  lemma MaxSendIsTenth(targetPps: nat)
    ensures MaxSend(targetPps) <= targetPps / 10
    ensures targetPps * SEND_INTERVAL_MS < U64 ==> MaxSend(targetPps) == targetPps / 10
  {
    assert targetPps * SEND_INTERVAL_MS % U64 <= targetPps * SEND_INTERVAL_MS;
    assert targetPps * 100 / 1000 == targetPps / 10;
    if targetPps * SEND_INTERVAL_MS < U64 {
      assert targetPps * SEND_INTERVAL_MS % U64 == targetPps * SEND_INTERVAL_MS;
    }
  }

  // ---------------------------------------------------------------- the rate

  /** Batches are at least one interval apart and none is larger than `maxSend`. */
  ghost predicate Paced(wire: seq<Batch>, interval: nat, maxSend: nat) {
    && (forall i :: 0 <= i < |wire| ==> wire[i].start <= wire[i].finish && |wire[i].txs| <= maxSend)
    && (forall i, j :: 0 <= i < j < |wire| && j <= i + 1 ==> wire[i].finish + interval <= wire[j].start)
  }

  predicate Overlaps(b: Batch, from: nat, to: nat) {
    from <= b.finish && b.start <= to
  }

  /** The packets of all batches that have any instant in [from, to]. */
  function SentWithin(wire: seq<Batch>, from: nat, to: nat): nat {
    if wire == [] then 0
    else
      var b := wire[|wire| - 1];
      SentWithin(wire[..|wire| - 1], from, to) + if Overlaps(b, from, to) then |b.txs| else 0
  }

  function BatchesWithin(wire: seq<Batch>, from: nat, to: nat): nat {
    if wire == [] then 0
    else BatchesWithin(wire[..|wire| - 1], from, to) + if Overlaps(wire[|wire| - 1], from, to) then 1 else 0
  }

  lemma {:induction false} SentAtMost(wire: seq<Batch>, interval: nat, maxSend: nat, from: nat, to: nat)
    requires Paced(wire, interval, maxSend)
    ensures SentWithin(wire, from, to) <= BatchesWithin(wire, from, to) * maxSend
  {
    if wire != [] {
      var init := wire[..|wire| - 1];
      SentAtMost(init, interval, maxSend, from, to);
      OneMoreBatch(BatchesWithin(init, from, to), maxSend);
    }
  }

  lemma OneMoreBatch(c: nat, n: nat)
    ensures (c + 1) * n == c * n + n
  {
  }

  /** The length of the gaps between `c` batches. */
  function Gaps(c: nat, interval: nat): nat {
    if c <= 1 then 0 else Gaps(c - 1, interval) + interval
  }

  lemma {:induction false} GapsProduct(c: nat, interval: nat)
    requires c > 0
    ensures Gaps(c, interval) == (c - 1) * interval
  {
    if c > 1 {
      GapsProduct(c - 1, interval);
      assert (c - 2) * interval + interval == (c - 1) * interval;
    }
  }

  /** Overlapping batches span the gaps between them. */
  lemma {:induction false} BatchesSpan(wire: seq<Batch>, interval: nat, maxSend: nat, from: nat, to: nat)
    requires Paced(wire, interval, maxSend) && from <= to
    ensures var c := BatchesWithin(wire, from, to);
            c == 0 || (from + Gaps(c, interval) <= wire[|wire| - 1].finish && Gaps(c, interval) <= to - from)
  {
    if wire != [] {
      var n := |wire| - 1;
      BatchesSpan(wire[..n], interval, maxSend, from, to);
      if BatchesWithin(wire[..n], from, to) > 0 {
        assert wire[..n][n - 1] == wire[n - 1];
      }
    }
  }

  /** What a window of `w` milliseconds may carry at most. */
  function WindowLimit(w: nat, targetPps: nat): nat {
    (w / 100 + 1) * (targetPps / 10)
  }

  /**
   The rate bound: in any window of `w` milliseconds at most
   (w / 100 + 1) * (targetPps / 10) packets are on the wire.
   */
  lemma RateBound(wire: seq<Batch>, ticksPerMs: nat, targetPps: nat, from: nat, w: nat)
    requires ticksPerMs > 0 && Paced(wire, SEND_INTERVAL_MS * ticksPerMs, MaxSend(targetPps))
    ensures SentWithin(wire, from, from + w * ticksPerMs) <= WindowLimit(w, targetPps)
  {
    var to := from + w * ticksPerMs;
    var c := BatchesWithin(wire, from, to);
    SentAtMost(wire, SEND_INTERVAL_MS * ticksPerMs, MaxSend(targetPps), from, to);
    BatchesSpan(wire, SEND_INTERVAL_MS * ticksPerMs, MaxSend(targetPps), from, to);
    MaxSendIsTenth(targetPps);
    if c > 0 {
      GapsProduct(c, SEND_INTERVAL_MS * ticksPerMs);
      Cancel(c - 1, w, ticksPerMs);
      assert c <= w / 100 + 1;
    }
    Monotone(c, w / 100 + 1, MaxSend(targetPps), targetPps / 10);
  }

  lemma Cancel(a: nat, w: nat, t: nat)
    requires t > 0 && a * (100 * t) <= w * t
    ensures a * 100 <= w
  {
    assert (a * 100 - w) * t == a * (100 * t) - w * t;
  }

  lemma Monotone(a: nat, b: nat, x: nat, y: nat)
    requires a <= b && x <= y
    ensures a * x <= b * y
  {
    assert a * x <= b * x <= b * y;
  }

  lemma PacedMore(wire: seq<Batch>, interval: nat, maxSend: nat, b: Batch)
    requires Paced(wire, interval, maxSend) && b.start <= b.finish && |b.txs| <= maxSend
    requires wire != [] ==> wire[|wire| - 1].finish + interval <= b.start
    ensures Paced(wire + [b], interval, maxSend)
  {
  }

  // ----------------------------------------------------------- the container

  /** The signature keys held by a cache of recent signatures, none without a cache. */
  ghost function RecentKeys(recent: Lru.LRUCache?<nat, ()>): set<nat>
    requires recent != null ==> recent.Valid()
    reads recent, if recent == null then {} else {recent.nodes}
  {
    if recent == null then {} else Recency.KeysOf(recent.Contents())
  }

  method IsRecent(recent: Lru.LRUCache?<nat, ()>, key: nat) returns (r: bool)
    requires recent != null ==> recent.Valid()
    ensures r == (key in RecentKeys(recent))
  {
    r := false;
    if recent != null {
      r := recent.Contains(key);
      Recency.HasKey(recent.Contents(), key);
    }
  }

  class TransactionContainer {
    const heap: MinMaxHeap
    const maxSend: nat
    const ticksPerMs: nat
    var lastSend: nat
    var wire: seq<Batch>

    ghost predicate Valid()
      reads this, heap
    {
      && heap.Valid()
      && 0 < ticksPerMs
      && Paced(wire, SEND_INTERVAL_MS * ticksPerMs, maxSend)
      && (wire != [] ==> wire[|wire| - 1].finish == lastSend)
    }

    constructor (capacity: nat, targetPps: nat, ticksPerMs: nat, now: nat)
      requires 0 < capacity && 0 < ticksPerMs
      ensures Valid() && fresh(heap) && heap.capacity == capacity && heap.inner == multiset{}
      ensures maxSend == MaxSend(targetPps) && this.ticksPerMs == ticksPerMs
      ensures lastSend == now && wire == []
    {
      heap := new MinMaxHeap(capacity);
      maxSend := MaxSend(targetPps);
      this.ticksPerMs := ticksPerMs;
      lastSend, wire := now, [];
    }

    method Queue(tx: Scored, stats: Stats) returns (stats': Stats)
      requires Valid()
      modifies heap
      ensures Valid()
      ensures exists leaked ::
                && Pushed(heap.capacity, old(heap.inner), tx, heap.inner, leaked)
                && stats' == if leaked.Some? then stats.(leakedPriority := stats.leakedPriority + 1) else stats
    {
      var leaked := heap.Push(tx);
      stats' := if leaked.Some? then stats.(leakedPriority := stats.leakedPriority + 1) else stats;
    }

    /** The next value of the descending iterator and the answer of its filter. */
    method PopNext(recent: Lru.LRUCache?<nat, ()>) returns (tx: Scored, isRecent: bool)
      requires Valid() && (recent != null ==> recent.Valid()) && |heap.inner| > 0
      modifies heap
      ensures Valid() && (recent != null ==> recent.Valid()) && RecentKeys(recent) == old(RecentKeys(recent))
      ensures IsMax(old(heap.inner), tx) && heap.inner == old(heap.inner) - multiset{tx}
      ensures |heap.inner| == |old(heap.inner)| - 1
      ensures isRecent == (tx.sigKey in RecentKeys(recent))
    {
      hide Paced, Lru.Rep, Lru.EntriesOf, RecentKeys;
      var max := heap.PopMax();
      RemoveCards(old(heap.inner), max.value);
      tx := max.value;
      isRecent := IsRecent(recent, tx.sigKey);
    }

    /** Pop the best entries, drop recent ones, stop after `limit` of the others. */
    method Drain(recent: Lru.LRUCache?<nat, ()>, limit: nat)
      returns (sent: seq<Scored>, dropped: nat, ghost popped: Heap)
      requires Valid() && (recent != null ==> recent.Valid())
      modifies heap
      ensures Valid() && |popped| == dropped && |sent| <= limit
      ensures Drained(old(heap.inner), RecentKeys(recent), limit, sent, popped, heap.inner)
    {
      hide Draining, Paced, Lru.Rep, Lru.EntriesOf, RecentKeys, IsMax;
      ghost var h, keys := heap.inner, RecentKeys(recent);
      sent, dropped, popped := [], 0, multiset{};
      DrainStart(h, keys, limit);
      while |sent| < limit && |heap.inner| > 0
        invariant Valid() && |popped| == dropped && |sent| <= limit && keys == RecentKeys(recent)
        invariant Draining(h, keys, limit, sent, popped, heap.inner)
        decreases |heap.inner|
      {
        ghost var rest := heap.inner;
        var tx, isRecent := PopNext(recent);
        if isRecent {
          DrainDrop(h, keys, limit, sent, popped, rest, tx);
          dropped, popped := dropped + 1, popped + multiset{tx};
        } else {
          DrainSend(h, keys, limit, sent, popped, rest, tx);
          sent := sent + [tx];
        }
      }
    }

    /**
     The lazy variant, for a caller that takes at most `wanted` transactions from
     the iterator. The timer restarts even when nothing is taken.
     */
    method MaybeRetrieve(stats: Stats, recent: Lru.LRUCache?<nat, ()>, now: nat, wanted: nat)
      returns (taken: Option<seq<Scored>>, stats': Stats)
      requires Valid() && (recent != null ==> recent.Valid()) && lastSend <= now
      modifies this, heap
      ensures heap.Valid() && wire == old(wire)
      ensures taken.Some? <==> (now - old(lastSend)) / ticksPerMs >= SEND_INTERVAL_MS
      ensures taken.None? ==> heap.inner == old(heap.inner) && lastSend == old(lastSend) && stats' == stats
      ensures taken.Some? ==>
                && lastSend == now
                && exists dropped ::
                     && Drained(old(heap.inner), RecentKeys(recent), if wanted < maxSend then wanted else maxSend,
                                taken.value, dropped, heap.inner)
                     && stats' == stats.(recentlyProcessedQueued := stats.recentlyProcessedQueued + |dropped|)
    {
      hide Drained, Paced, Lru.Rep, Lru.EntriesOf;
      taken, stats' := None, stats;
      if (now - lastSend) / ticksPerMs >= SEND_INTERVAL_MS {
        var sent, dropped, popped := Drain(recent, if wanted < maxSend then wanted else maxSend);
        stats' := stats.(recentlyProcessedQueued := stats.recentlyProcessedQueued + dropped);
        lastSend := now;
        taken := Some(sent);
      }
    }

    method MaybeTransmit(stats: Stats, recent: Lru.LRUCache<nat, ()>, now: nat, done: nat)
      returns (stats': Stats)
      requires Valid() && recent.Valid() && lastSend <= now <= done
      modifies this, heap
      ensures Valid()
      ensures Transmitted(
                old(heap.inner), old(lastSend), old(wire), stats, heap.inner, lastSend, wire, stats',
                Recency.KeysOf(recent.Contents()), maxSend, ticksPerMs, now, done)
      ensures lastSend == old(lastSend) || lastSend == done
    {
      hide Drained, Paced, Lru.Rep, Lru.EntriesOf;
      stats' := stats;
      if (now - lastSend) / ticksPerMs >= SEND_INTERVAL_MS {
        IntervalTicks(now - lastSend, ticksPerMs);
        var sent, dropped, popped := Drain(recent, maxSend);
        stats' := stats'.(recentlyProcessedQueued := stats'.recentlyProcessedQueued + dropped);
        if |sent| > 0 {
          stats' := stats'.(bankingTransmissions := stats'.bankingTransmissions + |sent|);
          lastSend := done;
          PacedMore(wire, SEND_INTERVAL_MS * ticksPerMs, maxSend, Batch(now, done, sent));
          wire := wire + [Batch(now, done, sent)];
        }
      }
    }
  }

  lemma IntervalTicks(elapsed: nat, ticksPerMs: nat)
    requires ticksPerMs > 0
    ensures elapsed / ticksPerMs >= SEND_INTERVAL_MS <==> elapsed >= SEND_INTERVAL_MS * ticksPerMs
  {
  }

  /** What one transmission attempt does to the heap, the timer, the wire and the counters. */
  ghost predicate Transmitted(
      h: Heap, lastSend: nat, wire: seq<Batch>, stats: Stats,
      h': Heap, lastSend': nat, wire': seq<Batch>, stats': Stats,
      recent: set<nat>, maxSend: nat, ticksPerMs: nat, now: nat, done: nat)
    requires ticksPerMs > 0 && lastSend <= now
  {
    if (now - lastSend) / ticksPerMs < SEND_INTERVAL_MS then
      h' == h && lastSend' == lastSend && wire' == wire && stats' == stats
    else
      exists sent, dropped ::
        && Drained(h, recent, maxSend, sent, dropped, h')
        && lastSend' == (if sent == [] then lastSend else done)
        && wire' == (if sent == [] then wire else wire + [Batch(now, done, sent)])
        && stats' == stats.(recentlyProcessedQueued := stats.recentlyProcessedQueued + |dropped|,
                            bankingTransmissions := stats.bankingTransmissions + |sent|)
  }
}
