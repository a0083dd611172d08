/** The laws of the tile over whole runs. */
module TileTheorems {
  import opened Wrappers
  import opened Basics
  import opened Metas
  import opened Packets
  import opened Counters
  import opened Scores
  import opened PriorityQueue
  import opened Banking
  import opened Model
  import opened Tile
  import opened TileInvariant
  import Recency

  lemma RunStep(cfg: Config, ss: seq<State>, es: seq<Event>, i: nat)
    requires Run(cfg, ss, es) && i < |es|
    ensures Next(cfg, ss[i], es[i], ss[i + 1])
  {
  }

  // ----------------------------------------------------- packet conservation

  /** What the queue held when the counters were last reset. */
  ghost function Carried(ss: seq<State>, es: seq<Event>, i: nat): nat
    requires |ss| == |es| + 1 && i < |ss|
  {
    if i == 0 then 0
    else if es[i - 1].StatsReset? then |ss[i - 1].heap|
    else Carried(ss, es, i - 1)
  }

  /** In every state, arrived packets and those carried over a reset are settled or still queued. */
  lemma {:induction false} Conservation(cfg: Config, ss: seq<State>, es: seq<Event>, i: nat)
    requires Run(cfg, ss, es) && i < |ss|
    ensures ss[i].stats.totalPackets + Carried(ss, es, i) == Settled(ss[i].stats) + |ss[i].heap|
  {
    hide Inv, Next, Settled;
    if i == 0 {
      InitOk(cfg, ss[0].lastSend);
    } else {
      Conservation(cfg, ss, es, i - 1);
      RunKeeps(cfg, ss, es, i - 1);
      RunStep(cfg, ss, es, i - 1);
      StepKeeps(cfg, ss[i - 1], es[i - 1], ss[i]);
    }
  }

  lemma {:induction false} NothingCarried(ss: seq<State>, es: seq<Event>, i: nat)
    requires |ss| == |es| + 1 && i < |ss| && StatsReset !in es[..i]
    ensures Carried(ss, es, i) == 0
  {
    if i > 0 {
      assert es[i - 1] == es[..i][i - 1];
      assert es[..i - 1] == es[..i][..i - 1];
      NothingCarried(ss, es, i - 1);
    }
  }

  /** Without resets every packet that arrived is counted exactly once or waits in the queue. */
  lemma ConservationWithoutReset(cfg: Config, ss: seq<State>, es: seq<Event>, i: nat)
    requires Run(cfg, ss, es) && i < |ss| && StatsReset !in es[..i]
    ensures var s := ss[i].stats;
            s.totalPackets
            == s.nonIpv4 + s.invalidMetaSize + s.failedSanitize + s.failedView + s.invalidPacketData
               + s.recentlyProcessed + s.duplicatePackets + s.leakedPriority + s.recentlyProcessedQueued
               + s.bankingTransmissions + |ss[i].heap|
  {
    Conservation(cfg, ss, es, i);
    NothingCarried(ss, es, i);
  }

  // ------------------------------------------------------------- rate bound

  /** In any window of `w` milliseconds at most (w / 100 + 1) * (target / 10) packets are transmitted. */
  lemma RunRate(cfg: Config, ss: seq<State>, es: seq<Event>, i: nat, from: nat, to: nat, w: nat)
    requires Run(cfg, ss, es) && i < |ss|
    requires to == from + w * cfg.ticksPerMs
    ensures SentWithin(ss[i].wire, from, to) <= WindowLimit(w, cfg.targetPps)
  {
    hide Next, Recency.WellFormed, BatchOk, TableOk;
    RunKeeps(cfg, ss, es, i);
    RateBound(ss[i].wire, cfg.ticksPerMs, cfg.targetPps, from, w);
  }

  // ------------------------------------------------------------ suppression

  /** The recent-signature channel as operations on the cache of recent signatures. */
  ghost function SignatureOps(cfg: Config, es: seq<Event>): seq<Recency.Op<nat, ()>> {
    if es == [] then []
    else
      var e, ops := es[|es| - 1], SignatureOps(cfg, es[..|es| - 1]);
      if e.RecentSignature? then ops + [Recency.OpPut(cfg.sigKey(e.signature), ())] else ops
  }

  /** The signature keys that arrived among the events. */
  ghost function ArrivedKeys(cfg: Config, es: seq<Event>): set<nat> {
    set i | 0 <= i < |es| && es[i].RecentSignature? :: cfg.sigKey(es[i].signature)
  }

  lemma {:induction false} OpsTouchArrived(cfg: Config, l: Recency.Entries<nat, ()>, es: seq<Event>)
    requires 0 < cfg.recentCap
    ensures Recency.Elements(Recency.Touches(cfg.recentCap, l, SignatureOps(cfg, es))) <= ArrivedKeys(cfg, es)
    ensures forall op :: op in SignatureOps(cfg, es) ==> op.OpPut?
  {
    if es != [] {
      var init, e := es[..|es| - 1], es[|es| - 1];
      OpsTouchArrived(cfg, l, init);
      assert ArrivedKeys(cfg, init) <= ArrivedKeys(cfg, es);
      if e.RecentSignature? {
        var ops := SignatureOps(cfg, es);
        assert ops[..|ops| - 1] == SignatureOps(cfg, init);
        assert cfg.sigKey(es[|es| - 1].signature) in ArrivedKeys(cfg, es);
      }
    }
  }

  /** Only the recent-signature channel changes the cache of recent signatures. */
  lemma OnlySignaturesTouchRecent(cfg: Config, s: State, e: Event, s': State)
    requires Proper(cfg) && Next(cfg, s, e, s')
    ensures s'.recent == if e.RecentSignature?
                         then Recency.Apply(cfg.recentCap, s.recent, Recency.OpPut(cfg.sigKey(e.signature), ()))
                         else s.recent
  {
    hide Judge, QueuedAndSent, FedBack, Trained, Recency.Put, Recency.Pop;
  }

  lemma SignatureOpsSnoc(cfg: Config, es: seq<Event>, i: nat, j: nat)
    requires i < j <= |es|
    ensures var ops := SignatureOps(cfg, es[i..j - 1]);
            SignatureOps(cfg, es[i..j])
            == if es[j - 1].RecentSignature? then ops + [Recency.OpPut(cfg.sigKey(es[j - 1].signature), ())] else ops
  {
    assert es[i..j][..j - i - 1] == es[i..j - 1];
  }

  lemma {:induction false} RecentAfter(cfg: Config, ss: seq<State>, es: seq<Event>, i: nat, j: nat)
    requires Run(cfg, ss, es) && i <= j < |ss|
    ensures ss[j].recent == Recency.Run(cfg.recentCap, ss[i].recent, SignatureOps(cfg, es[i..j]))
    decreases j - i
  {
    hide Next, Recency.Apply;
    if i == j {
      assert es[i..j] == [];
    } else {
      RecentAfter(cfg, ss, es, i, j - 1);
      RunStep(cfg, ss, es, j - 1);
      OnlySignaturesTouchRecent(cfg, ss[j - 1], es[j - 1], ss[j]);
      SignatureOpsSnoc(cfg, es, i, j);
      if es[j - 1].RecentSignature? {
        Recency.RunSnoc(cfg.recentCap, ss[i].recent, SignatureOps(cfg, es[i..j - 1]),
                        Recency.OpPut(cfg.sigKey(es[j - 1].signature), ()));
      }
    }
  }

  /** The keys of the signatures that arrived, in order. */
  ghost function ArrivedLog(cfg: Config, es: seq<Event>): seq<nat> {
    if es == [] then []
    else
      var e, keys := es[|es| - 1], ArrivedLog(cfg, es[..|es| - 1]);
      if e.RecentSignature? then keys + [cfg.sigKey(e.signature)] else keys
  }

  lemma {:induction false} OpsLogArrived(cfg: Config, es: seq<Event>)
    ensures Recency.KeyLog(SignatureOps(cfg, es)) == ArrivedLog(cfg, es)
    ensures forall op :: op in SignatureOps(cfg, es) ==> op.OpPut?
  {
    if es != [] {
      OpsLogArrived(cfg, es[..|es| - 1]);
    }
  }

  /** In every state of every run the recent keys are exactly the latest that arrived, as many as the cache holds. */
  lemma RecentIsLatest(cfg: Config, ss: seq<State>, es: seq<Event>, i: nat)
    requires Run(cfg, ss, es) && i < |ss|
    ensures Recency.Keys(ss[i].recent)
            == Recency.Take(Recency.Latest(ArrivedLog(cfg, es[..i]), {}), cfg.recentCap)
  {
    hide Next, Recency.Take, Recency.Latest, Recency.KeyLog, ArrivedLog, SignatureOps;
    RecentAfter(cfg, ss, es, 0, i);
    assert es[0..i] == es[..i];
    var ops := SignatureOps(cfg, es[..i]);
    OpsLogArrived(cfg, es[..i]);
    Recency.PutsTouchEverything(cfg.recentCap, [], ops);
    Recency.HoldsLatestTouched(cfg.recentCap, ops);
  }

  /** A signature stays recent until as many other keys have arrived as the cache holds. */
  lemma StaysRecent(cfg: Config, ss: seq<State>, es: seq<Event>, i: nat, j: nat)
    requires Run(cfg, ss, es) && i < j < |ss| && es[i].RecentSignature?
    requires |ArrivedKeys(cfg, es[i + 1..j]) - {cfg.sigKey(es[i].signature)}| < cfg.recentCap
    ensures Recency.Has(ss[j].recent, cfg.sigKey(es[i].signature))
  {
    hide Next, Inv, Recency.Apply, Recency.WellFormed, ArrivedKeys, SignatureOps;
    var key, cap := cfg.sigKey(es[i].signature), cfg.recentCap;
    var l, ops := ss[i + 1].recent, SignatureOps(cfg, es[i + 1..j]);
    RunStep(cfg, ss, es, i);
    OnlySignaturesTouchRecent(cfg, ss[i], es[i], ss[i + 1]);
    Recency.PutIsFirst(cap, ss[i].recent, key, ());
    RecentWellFormed(cfg, ss, es, i + 1);
    RecentAfter(cfg, ss, es, i + 1, j);
    OpsTouchArrived(cfg, l, es[i + 1..j]);
    var touched := Recency.Elements(Recency.Touches(cap, l, ops)) - {key};
    SubsetSize(touched, ArrivedKeys(cfg, es[i + 1..j]) - {key});
    Recency.StaysResident(cap, l, ops, key);
  }

  lemma RecentWellFormed(cfg: Config, ss: seq<State>, es: seq<Event>, i: nat)
    requires Run(cfg, ss, es) && i < |ss|
    ensures Recency.WellFormed(cfg.recentCap, ss[i].recent)
  {
    hide Next;
    RunKeeps(cfg, ss, es, i);
  }

  /** What a step adds to the wire carries no recent signature. */
  lemma TransmitsNoRecent(cfg: Config, s: State, e: Event, s': State)
    requires Proper(cfg) && Next(cfg, s, e, s')
    ensures s.wire <= s'.wire
    ensures forall b, x :: b in s'.wire[|s.wire|..] && x in b.txs ==> !Recency.Has(s.recent, x.sigKey)
  {
    hide Judge, FedBack, Trained, Recency.Put, Recency.Pop, Drained, Pushed, Recency.KeysOf;
    if e.PacketIn? && Judge(cfg, s, e.packet).Valued? && s'.wire != s.wire {
      var v, stats := Judge(cfg, s, e.packet), s.stats.(totalPackets := s.stats.totalPackets + 1);
      QueuedSendsNoRecent(cfg, s, if v.tx.score == 0.0 then stats.(zeroScore := stats.zeroScore + 1) else stats,
                          v.tx, e.now, e.done, s');
    }
  }

  lemma QueuedSendsNoRecent(cfg: Config, s: State, stats: Stats, tx: Scored, now: nat, done: nat, s': State)
    requires Proper(cfg) && s.lastSend <= now && QueuedAndSent(cfg, s, stats, tx, now, done, s')
    ensures s.wire <= s'.wire
    ensures forall b, x :: b in s'.wire[|s.wire|..] && x in b.txs ==> !Recency.Has(s.recent, x.sigKey)
  {
    hide Pushed, Recency.KeysOf;
    var keys := Recency.KeysOf(s.recent);
    if (now - s.lastSend) / cfg.ticksPerMs >= SEND_INTERVAL_MS {
      var h: Heap, sent, dropped :|
        && Drained(h, keys, MaxSend(cfg.targetPps), sent, dropped, s'.heap)
        && s'.wire == (if sent == [] then s.wire else s.wire + [Batch(now, done, sent)]);
      forall b, x | b in s'.wire[|s.wire|..] && x in b.txs ensures !Recency.Has(s.recent, x.sigKey) {
        assert b == Batch(now, done, sent);
        Recency.HasKey(s.recent, x.sigKey);
      }
    }
  }

  lemma QueuedSendsBest(cfg: Config, s: State, stats: Stats, tx: Scored, now: nat, done: nat, s': State)
    requires Proper(cfg) && s.lastSend <= now && QueuedAndSent(cfg, s, stats, tx, now, done, s')
    ensures s.wire <= s'.wire
    ensures forall b :: b in s'.wire[|s.wire|..] ==> BestBatch(cfg, b, s'.heap)
  {
    hide Pushed, Recency.KeysOf;
    if s'.wire != s.wire {
      var h: Heap, sent, dropped :|
        && Drained(h, Recency.KeysOf(s.recent), MaxSend(cfg.targetPps), sent, dropped, s'.heap)
        && s'.wire == (if sent == [] then s.wire else s.wire + [Batch(now, done, sent)]);
      assert forall x :: x in sent ==> x in multiset(sent) + dropped;
    }
  }

  /** A batch in descending order that outranks the rest of the queue, and leaves none unless it is full. */
  ghost predicate BestBatch(cfg: Config, b: Batch, rest: Heap) {
    && Descending(b.txs)
    && |b.txs| <= MaxSend(cfg.targetPps)
    && (|b.txs| < MaxSend(cfg.targetPps) ==> rest == multiset{})
    && forall x, y :: x in b.txs && y in rest ==> y.score <= x.score
  }

  lemma StepSendsBest(cfg: Config, s: State, e: Event, s': State)
    requires Proper(cfg) && Next(cfg, s, e, s')
    ensures s.wire <= s'.wire
    ensures forall b :: b in s'.wire[|s.wire|..] ==> BestBatch(cfg, b, s'.heap)
  {
    hide Judge, FedBack, Trained, Recency.Put, Recency.Pop, QueuedAndSent, BestBatch;
    if e.PacketIn? && Judge(cfg, s, e.packet).Valued? && s'.wire != s.wire {
      var v, stats := Judge(cfg, s, e.packet), s.stats.(totalPackets := s.stats.totalPackets + 1);
      QueuedSendsBest(cfg, s, if v.tx.score == 0.0 then stats.(zeroScore := stats.zeroScore + 1) else stats,
                      v.tx, e.now, e.done, s');
    }
  }

  /** In every run, whatever a step transmits is the best the queue had, in order. */
  lemma RunSendsBest(cfg: Config, ss: seq<State>, es: seq<Event>, j: nat)
    requires Run(cfg, ss, es) && j < |es|
    ensures ss[j].wire <= ss[j + 1].wire
    ensures var added, rest := ss[j + 1].wire[|ss[j].wire|..], ss[j + 1].heap;
            forall b :: b in added ==> BestBatch(cfg, b, rest)
  {
    hide Next, BestBatch;
    RunStep(cfg, ss, es, j);
    StepSendsBest(cfg, ss[j], es[j], ss[j + 1]);
  }

  /**
   End-to-end suppression: once a signature has arrived on the recent-signature
   channel, and while fewer other keys have arrived since than the cache holds,
   no step transmits a transaction under its key, queued before or arriving later.
   */
  lemma KeySuppression(cfg: Config, ss: seq<State>, es: seq<Event>, i: nat, j: nat)
    requires Run(cfg, ss, es) && i < j < |es| && es[i].RecentSignature?
    requires |ArrivedKeys(cfg, es[i + 1..j]) - {cfg.sigKey(es[i].signature)}| < cfg.recentCap
    ensures ss[j].wire <= ss[j + 1].wire
    ensures forall b, x :: b in ss[j + 1].wire[|ss[j].wire|..] && x in b.txs ==>
                             x.sigKey != cfg.sigKey(es[i].signature)
  {
    hide Next;
    StaysRecent(cfg, ss, es, i, j);
    RunStep(cfg, ss, es, j);
    TransmitsNoRecent(cfg, ss[j], es[j], ss[j + 1]);
  }
}
