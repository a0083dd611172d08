/** What every step of the tile keeps, and the laws that hold over its runs because of it. */
module TileInvariant {
  import opened Wrappers
  import opened Metas
  import opened Packets
  import opened Counters
  import opened Scores
  import opened PriorityQueue
  import opened Banking
  import opened Model
  import opened Tile
  import Recency

  // ------------------------------------------------- queue and transmission

  /** A transmission attempt keeps the pacing and moves packets from the heap to the counters. */
  lemma TransmitKeeps(
      h: Heap, lastSend: nat, wire: seq<Batch>, stats: Stats,
      h': Heap, lastSend': nat, wire': seq<Batch>, stats': Stats,
      recent: set<nat>, maxSend: nat, ticksPerMs: nat, now: nat, done: nat)
    requires ticksPerMs > 0 && lastSend <= now <= done
    requires Transmitted(h, lastSend, wire, stats, h', lastSend', wire', stats', recent, maxSend, ticksPerMs, now, done)
    requires Paced(wire, SEND_INTERVAL_MS * ticksPerMs, maxSend)
    requires wire != [] ==> wire[|wire| - 1].finish == lastSend
    ensures Paced(wire', SEND_INTERVAL_MS * ticksPerMs, maxSend)
    ensures wire' != [] ==> wire'[|wire'| - 1].finish == lastSend'
    ensures |h'| <= |h|
    ensures Settled(stats') + |h'| == Settled(stats) + |h| && stats'.totalPackets == stats.totalPackets
  {
    hide Drained, Paced;
    if (now - lastSend) / ticksPerMs >= SEND_INTERVAL_MS {
      IntervalTicks(now - lastSend, ticksPerMs);
      var sent, dropped :|
        && Drained(h, recent, maxSend, sent, dropped, h')
        && lastSend' == (if sent == [] then lastSend else done)
        && wire' == (if sent == [] then wire else wire + [Batch(now, done, sent)])
        && stats' == stats.(recentlyProcessedQueued := stats.recentlyProcessedQueued + |dropped|,
                            bankingTransmissions := stats.bankingTransmissions + |sent|);
      DrainCards(h, recent, maxSend, sent, dropped, h');
      DrainLimit(h, recent, maxSend, sent, dropped, h');
      if sent != [] {
        PacedMore(wire, SEND_INTERVAL_MS * ticksPerMs, maxSend, Batch(now, done, sent));
      }
    }
  }

  lemma DrainLimit(h: Heap, recent: set<nat>, n: nat, sent: seq<Scored>, dropped: Heap, rest: Heap)
    requires Drained(h, recent, n, sent, dropped, rest)
    ensures |sent| <= n
  {
  }

  lemma QueuedKeeps(cfg: Config, s: State, stats: Stats, tx: Scored, now: nat, done: nat, s': State)
    requires Proper(cfg) && QueueOk(cfg, s) && s.lastSend <= now <= done
    requires QueuedAndSent(cfg, s, stats, tx, now, done, s')
    ensures QueueOk(cfg, s')
    ensures Settled(s'.stats) + |s'.heap| == Settled(stats) + |s.heap| + 1
    ensures s'.stats.totalPackets == stats.totalPackets
  {
    hide Pushed, Transmitted, Paced;
    var h: Heap, leaked: Option<Scored> :|
      && Pushed(cfg.heapCap, s.heap, tx, h, leaked)
      && Transmitted(
           h, s.lastSend, s.wire,
           if leaked.Some? then stats.(leakedPriority := stats.leakedPriority + 1) else stats,
           s'.heap, s'.lastSend, s'.wire, s'.stats,
           Recency.KeysOf(s.recent), MaxSend(cfg.targetPps), cfg.ticksPerMs, now, done);
    PushCards(cfg.heapCap, s.heap, tx, h, leaked);
    TransmitKeeps(
      h, s.lastSend, s.wire,
      if leaked.Some? then stats.(leakedPriority := stats.leakedPriority + 1) else stats,
      s'.heap, s'.lastSend, s'.wire, s'.stats,
      Recency.KeysOf(s.recent), MaxSend(cfg.targetPps), cfg.ticksPerMs, now, done);
  }

  // ------------------------------------------------------- training a table

  lemma {:induction false} SumNonNegative(batch: seq<(Key, real)>, k: Key)
    requires forall i :: 0 <= i < |batch| ==> batch[i].1 >= 0.0
    ensures Sum(batch, k) >= 0.0 && Mean(batch, k) >= 0.0
  {
    if batch != [] {
      SumNonNegative(batch[..|batch| - 1], k);
    }
    if Count(batch, k) > 0 {
      Quotient(Sum(batch, k), Count(batch, k) as real);
    }
  }

  lemma Quotient(a: real, b: real)
    requires a >= 0.0 && b > 0.0
    ensures a / b >= 0.0
  {
  }

  lemma LearnedNonNegative(room: nat, t: Table, batch: seq<(Key, real)>)
    requires Paired(t) && NonNegative(t.forward)
    requires forall i :: 0 <= i < |batch| ==> batch[i].1 >= 0.0
    ensures NonNegative(Learned(room, t.forward, batch, Median(t.root)))
  {
    var learned := Learned(room, t.forward, batch, Median(t.root));
    forall k | k in learned ensures learned[k] >= 0.0 {
      SumNonNegative(batch, k);
      if k in t.forward {
        MedianIsScore(t, k);
        assert Target(batch, k, Median(t.root)) >= 0.0;
      }
    }
  }

  lemma UpdatedKeeps(cfg: Config, limit: nat, t: Table, batch: seq<(Key, real)>, t': Table)
    requires TableOk(cfg, limit, t) && Updated(cfg.treeCap, limit, t, batch, t')
    requires forall i :: 0 <= i < |batch| ==> batch[i].1 >= 0.0
    ensures TableOk(cfg, limit, t')
  {
    hide Learned;
    LearnedNonNegative(cfg.treeCap - |t.forward|, t, batch);
    LearnedSize(cfg.treeCap - |t.forward|, t.forward, batch, Median(t.root));
  }

  // ------------------------------------------------------------ every step

  lemma CompletingOk(s: State, r: RemainingMeta)
    requires Recency.Has(s.partial, r.packetHash) && BatchOk(s.complete)
    ensures var txs := Completing(s, r);
            && |txs| == |s.complete| + 1
            && (forall i :: 0 <= i < |txs| ==> txs[i].value >= 0.0)
            && (forall i :: 0 <= i < |txs| ==> IpSamples(txs)[i].1 >= 0.0 && SignerSamples(txs)[i].1 >= 0.0)
  {
    CompleteNonNegative(s.partial[Recency.Find(s.partial, r.packetHash)].1, r);
  }

  lemma SchedulerKeeps(cfg: Config, s: State, r: RemainingMeta, s': State)
    requires Proper(cfg) && Inv(cfg, s) && SchedulerStep(cfg, s, r, s')
    ensures Inv(cfg, s')
  {
    hide Recency.WellFormed, TableOk, Updated, Recency.Pop, Complete, Paced;
    if Recency.Has(s.partial, r.packetHash) {
      CompletingOk(s, r);
      Recency.ApplyWellFormed(cfg.partialCap, s.partial, Recency.OpPop(r.packetHash));
      var txs := Completing(s, r);
      if |txs| > BATCH_LIMIT {
        UpdatedKeeps(cfg, cfg.maxIps, s.ips, IpSamples(txs), s'.ips);
        UpdatedKeeps(cfg, cfg.maxSigners, s.signers, SignerSamples(txs), s'.signers);
      }
    }
  }

  lemma ValuedKeeps(
      cfg: Config, s: State, stats: Stats, hash: nat, m: PartialMeta, tx: Scored, now: nat, done: nat, s': State)
    requires Proper(cfg) && Inv(cfg, s) && s.lastSend <= now <= done
    requires ValuedStep(cfg, s, stats, hash, m, tx, now, done, s')
    ensures Inv(cfg, s')
    ensures Settled(s'.stats) + |s'.heap| == Settled(stats) + |s.heap| + 1
    ensures s'.stats.totalPackets == stats.totalPackets
  {
    hide Recency.WellFormed, QueuedAndSent, TableOk, BatchOk, Recency.Put, Paced;
    Recency.ApplyWellFormed(cfg.partialCap, s.partial, Recency.OpPut(hash, m));
    if !Recency.Put(cfg.partialCap, s.partial, hash, m).duplicate {
      var stats' := if tx.score == 0.0 then stats.(zeroScore := stats.zeroScore + 1) else stats;
      QueuedKeeps(cfg, s, stats', tx, now, done, s');
    }
  }

  /** The surplus of settled and queued packets over arrived ones. */
  ghost function Surplus(s: State): int {
    Settled(s.stats) + |s.heap| - s.stats.totalPackets
  }

  lemma PacketKeeps(cfg: Config, s: State, p: Packet, now: nat, done: nat, s': State)
    requires Proper(cfg) && Inv(cfg, s) && PacketStep(cfg, s, p, now, done, s')
    ensures Inv(cfg, s') && Surplus(s') == Surplus(s)
  {
    hide Recency.WellFormed, TableOk, BatchOk, Judge, ValuedStep, FedBack, Paced;
    var stats := Counted(s.stats.(totalPackets := s.stats.totalPackets + 1), Judge(cfg, s, p));
    match Judge(cfg, s, p)
    case Unviewable(ip) =>
      FedBackKeeps(cfg, cfg.maxIps, s.ips, BitsKey(ip), s'.ips);
    case Valued(hash, m, tx) =>
      ValuedKeeps(cfg, s, stats, hash, m, tx, now, done, s');
    case _ =>
  }

  /** Every step keeps the invariant; every step but a reset of the counters keeps the surplus. */
  lemma StepKeeps(cfg: Config, s: State, e: Event, s': State)
    requires Proper(cfg) && Inv(cfg, s) && Next(cfg, s, e, s')
    ensures Inv(cfg, s')
    ensures Surplus(s') == if e.StatsReset? then |s.heap| else Surplus(s)
  {
    hide Recency.WellFormed, TableOk, BatchOk, PacketStep, SchedulerStep, FedBack, Paced, Recency.Put;
    match e
    case PacketIn(p, now, done) => PacketKeeps(cfg, s, p, now, done, s');
    case RecentSignature(signature) =>
      Recency.ApplyWellFormed(cfg.recentCap, s.recent, Recency.OpPut(cfg.sigKey(signature), ()));
    case SchedulerResult(r) =>
      SchedulerKeeps(cfg, s, r, s');
      SchedulerCounts(cfg, s, r, s');
    case SigverifyFailed(ip) => FedBackKeeps(cfg, cfg.maxIps, s.ips, ScoreKey(ip), s'.ips);
    case StatsReset =>
  }

  lemma SchedulerCounts(cfg: Config, s: State, r: RemainingMeta, s': State)
    requires SchedulerStep(cfg, s, r, s')
    ensures s'.heap == s.heap && Settled(s'.stats) == Settled(s.stats) && s'.recent == s.recent
    ensures s'.stats.totalPackets == s.stats.totalPackets && s'.wire == s.wire && s'.lastSend == s.lastSend
  {
  }

  lemma InitOk(cfg: Config, now: nat)
    requires Proper(cfg)
    ensures Inv(cfg, Init(now)) && Surplus(Init(now)) == 0
  {
    assert Inverse(map[]) == {};
  }

  /** Before anything was learned every address and signer scores one. */
  lemma FreshModelIsNeutral(now: nat, ip: Key, signer: Key)
    ensures Forward(Init(now).ips, Init(now).signers, ip, signer) == 1.0
  {
  }

  /** The invariant holds in every state of every run. */
  lemma {:induction false} RunKeeps(cfg: Config, ss: seq<State>, es: seq<Event>, i: nat)
    requires Run(cfg, ss, es) && i < |ss|
    ensures Inv(cfg, ss[i])
  {
    hide Inv, Next;
    if i == 0 {
      InitOk(cfg, ss[0].lastSend);
    } else {
      RunKeeps(cfg, ss, es, i - 1);
      StepKeeps(cfg, ss[i - 1], es[i - 1], ss[i]);
    }
  }
}
