/** The laws of the tile about stored metadata, training and feedback, over whole runs. */
module TileLedger {
  import opened Wrappers
  import opened Metas
  import opened Packets
  import opened Counters
  import opened Scores
  import opened PriorityQueue
  import opened Banking
  import opened Model
  import opened Tile
  import opened TileInvariant
  import opened TileTheorems
  import Recency

  // ------------------------------------------------ what a step does to `partial`

  /** The operation a step performs on the cache of partial metadata, if any. */
  ghost function PartialOp(cfg: Config, s: State, e: Event): Option<Recency.Op<nat, PartialMeta>> {
    if e.PacketIn? && Judge(cfg, s, e.packet).Valued? then
      var v := Judge(cfg, s, e.packet);
      Some(Recency.OpPut(v.hash, v.meta))
    else if e.SchedulerResult? then Some(Recency.OpPop(e.meta.packetHash))
    else None
  }

  lemma PartialFollowsOp(cfg: Config, s: State, e: Event, s': State)
    requires Proper(cfg) && Next(cfg, s, e, s')
    ensures var op := PartialOp(cfg, s, e);
            s'.partial == if op.Some? then Recency.Apply(cfg.partialCap, s.partial, op.value) else s.partial
  {
    hide Judge, QueuedAndSent, FedBack, Trained, Recency.Put;
  }

  /** The packet is new: its partial metadata is stored and it goes on to the queue. */
  ghost predicate Accepts(cfg: Config, s: State, e: Event) {
    var op := PartialOp(cfg, s, e);
    op.Some? && op.value.OpPut? && !Recency.Has(s.partial, op.value.key)
  }

  /** Storing it pushes out the least recently stored metadata. */
  ghost predicate Evicts(cfg: Config, s: State, e: Event) {
    Accepts(cfg, s, e) && |s.partial| == cfg.partialCap
  }

  ghost function AcceptedUpTo(cfg: Config, ss: seq<State>, es: seq<Event>, i: nat): nat
    requires i <= |es| <= |ss|
  {
    if i == 0 then 0
    else AcceptedUpTo(cfg, ss, es, i - 1) + if Accepts(cfg, ss[i - 1], es[i - 1]) then 1 else 0
  }

  ghost function EvictedUpTo(cfg: Config, ss: seq<State>, es: seq<Event>, i: nat): nat
    requires i <= |es| <= |ss|
  {
    if i == 0 then 0
    else EvictedUpTo(cfg, ss, es, i - 1) + if Evicts(cfg, ss[i - 1], es[i - 1]) then 1 else 0
  }

  ghost function CompletedUpTo(ss: seq<State>, es: seq<Event>, i: nat): nat
    requires i <= |es| <= |ss|
  {
    if i == 0 then 0
    else CompletedUpTo(ss, es, i - 1) + if Completes(ss[i - 1], es[i - 1]) then 1 else 0
  }

  lemma OpSize(cap: nat, l: Recency.Entries<nat, PartialMeta>, op: Recency.Op<nat, PartialMeta>)
    requires Recency.WellFormed(cap, l) && (op.OpPut? || op.OpPop?)
    ensures var has := Recency.Has(l, op.key);
            |Recency.Apply(cap, l, op)|
            == if op.OpPut? then (if has || |l| == cap then |l| else |l| + 1) else (if has then |l| - 1 else |l|)
  {
  }

  /** Accepted packets are resident, completed or evicted, in every state of every run. */
  lemma {:induction false} PartialLedger(cfg: Config, ss: seq<State>, es: seq<Event>, i: nat)
    requires Run(cfg, ss, es) && i < |ss|
    ensures AcceptedUpTo(cfg, ss, es, i)
            == |ss[i].partial| + CompletedUpTo(ss, es, i) + EvictedUpTo(cfg, ss, es, i)
  {
    hide Next, Judge, Recency.Apply, Recency.WellFormed;
    if i > 0 {
      PartialLedger(cfg, ss, es, i - 1);
      RunStep(cfg, ss, es, i - 1);
      PartialFollowsOp(cfg, ss[i - 1], es[i - 1], ss[i]);
      PartialWellFormed(cfg, ss, es, i - 1);
      var op := PartialOp(cfg, ss[i - 1], es[i - 1]);
      if op.Some? {
        OpSize(cfg.partialCap, ss[i - 1].partial, op.value);
      }
    }
  }

  lemma PartialWellFormed(cfg: Config, ss: seq<State>, es: seq<Event>, i: nat)
    requires Run(cfg, ss, es) && i < |ss|
    ensures Recency.WellFormed(cfg.partialCap, ss[i].partial)
  {
    hide Next;
    RunKeeps(cfg, ss, es, i);
  }

  // ---------------------------------------------------- never accepted twice

  /** Hash `h` leaves the cache in step `m`. */
  ghost predicate LeavesAt(ss: seq<State>, m: nat, h: nat)
    requires m + 1 < |ss|
  {
    Recency.Has(ss[m].partial, h) && !Recency.Has(ss[m + 1].partial, h)
  }

  ghost predicate AcceptsHash(cfg: Config, s: State, e: Event, h: nat) {
    Accepts(cfg, s, e) && PartialOp(cfg, s, e).value.key == h
  }

  lemma {:induction false} LeavesBetween(ss: seq<State>, i: nat, j: nat, h: nat) returns (m: nat)
    requires i <= j < |ss| && Recency.Has(ss[i].partial, h) && !Recency.Has(ss[j].partial, h)
    ensures i <= m < j && LeavesAt(ss, m, h)
    decreases j - i
  {
    if !Recency.Has(ss[i + 1].partial, h) {
      m := i;
    } else {
      m := LeavesBetween(ss, i + 1, j, h);
    }
  }

  /** A hash accepted in steps i and j has left the cache in a step between them. */
  lemma NeverAcceptedTwice(cfg: Config, ss: seq<State>, es: seq<Event>, i: nat, j: nat, h: nat) returns (m: nat)
    requires Run(cfg, ss, es) && i < j < |es|
    requires AcceptsHash(cfg, ss[i], es[i], h) && AcceptsHash(cfg, ss[j], es[j], h)
    ensures i < m < j && LeavesAt(ss, m, h)
  {
    hide Next, Judge, Recency.Apply;
    RunStep(cfg, ss, es, i);
    PartialFollowsOp(cfg, ss[i], es[i], ss[i + 1]);
    Recency.PutIsFirst(cfg.partialCap, ss[i].partial, h, PartialOp(cfg, ss[i], es[i]).value.value);
    m := LeavesBetween(ss, i + 1, j, h);
  }

  /** A hash leaves the cache only when its result arrives, or as the oldest entry of a full cache. */
  lemma LeavesOnlyByResultOrEviction(cfg: Config, ss: seq<State>, es: seq<Event>, m: nat, h: nat)
    requires Run(cfg, ss, es) && m < |es| && LeavesAt(ss, m, h)
    ensures (es[m].SchedulerResult? && es[m].meta.packetHash == h)
            || (Evicts(cfg, ss[m], es[m]) && ss[m].partial[cfg.partialCap - 1].0 == h)
  {
    hide Next, Judge, Recency.Apply, Recency.WellFormed;
    RunStep(cfg, ss, es, m);
    PartialFollowsOp(cfg, ss[m], es[m], ss[m + 1]);
    PartialWellFormed(cfg, ss, es, m);
    var op := PartialOp(cfg, ss[m], es[m]).value;
    if !Expels(cfg.partialCap, ss[m].partial, op, h) {
      OpKeeps(cfg.partialCap, ss[m].partial, op, h);
    }
  }

  /** What a pop of `h` or an eviction of `h` looks like. */
  ghost predicate Expels(cap: nat, l: Recency.Entries<nat, PartialMeta>, op: Recency.Op<nat, PartialMeta>, h: nat) {
    op == Recency.OpPop(h) || (op.OpPut? && !Recency.Has(l, op.key) && |l| == cap > 0 && l[cap - 1].0 == h)
  }

  lemma OpKeeps(cap: nat, l: Recency.Entries<nat, PartialMeta>, op: Recency.Op<nat, PartialMeta>, h: nat)
    requires Recency.WellFormed(cap, l) && Recency.Has(l, h) && !Expels(cap, l, op, h)
    ensures Recency.Has(Recency.Apply(cap, l, op), h)
  {
    var r := Recency.Apply(cap, l, op);
    if Recency.Has(l, op.key) && op.key != h {
      Recency.AheadCut(l, Recency.Find(l, op.key), h);
      if op.OpPut? || op.OpGet? {
        Recency.AheadFront(r[0], Recency.Without(l, op.key), h);
      }
    } else if op.OpPut? && op.key != h {
      var n := if |l| == cap then cap - 1 else |l|;
      assert l[..|l|] == l;
      Recency.AheadInit(l, n, h);
      Recency.AheadFront(r[0], l[..n], h);
    } else if op.key == h && (op.OpPut? || op.OpGet?) {
      assert r[0].0 == h;
    }
  }

  // ----------------------------------------- which metadata a result completes

  /** The partial metadata most recently stored under `h` in the first `i` steps. */
  ghost function LastPut(cfg: Config, ss: seq<State>, es: seq<Event>, i: nat, h: nat): Option<PartialMeta>
    requires i <= |es| <= |ss|
  {
    if i == 0 then None
    else
      var op := PartialOp(cfg, ss[i - 1], es[i - 1]);
      if op.Some? && op.value.OpPut? && op.value.key == h then Some(op.value.value)
      else LastPut(cfg, ss, es, i - 1, h)
  }

  /** Every resident entry is the one most recently stored under its hash. */
  lemma {:induction false} ResidentIsLastPut(cfg: Config, ss: seq<State>, es: seq<Event>, i: nat, x: (nat, PartialMeta))
    requires Run(cfg, ss, es) && i < |ss| && x in ss[i].partial
    ensures LastPut(cfg, ss, es, i, x.0) == Some(x.1)
  {
    hide Next, Judge, Recency.Apply, Recency.WellFormed;
    if i > 0 {
      RunStep(cfg, ss, es, i - 1);
      PartialFollowsOp(cfg, ss[i - 1], es[i - 1], ss[i]);
      PartialWellFormed(cfg, ss, es, i - 1);
      var op := PartialOp(cfg, ss[i - 1], es[i - 1]);
      if op.Some? {
        Recency.ApplyOrigin(cfg.partialCap, ss[i - 1].partial, op.value, x);
      }
      if x in ss[i - 1].partial {
        ResidentIsLastPut(cfg, ss, es, i - 1, x);
      }
    }
  }

  /** A completed entry merges the result with the metadata most recently stored under its hash. */
  lemma CompletesLastPut(cfg: Config, ss: seq<State>, es: seq<Event>, i: nat)
    requires Run(cfg, ss, es) && i < |es| && Completes(ss[i], es[i])
    ensures var h, m := es[i].meta.packetHash, LastPut(cfg, ss, es, i, es[i].meta.packetHash);
            && m.Some?
            && Completing(ss[i], es[i].meta) == ss[i].complete + [Complete(m.value, es[i].meta)]
  {
    hide Next, Judge;
    var h := es[i].meta.packetHash;
    ResidentIsLastPut(cfg, ss, es, i, ss[i].partial[Recency.Find(ss[i].partial, h)]);
  }

  // ------------------------------------------------------------ the counters

  /** The classes of events that have a counter of their own. */
  datatype Class =
    | Arrived | NotIpv4 | Oversized | Unparsed | Unclean | Unusable | Known | Repeated
    | Worthless | Leaked | Announced | Finished

  ghost predicate InClass(cfg: Config, s: State, e: Event, c: Class) {
    var op := PartialOp(cfg, s, e);
    var sized := e.PacketIn? && e.packet.addr.V4? && e.packet.size <= PACKET_DATA_SIZE;
    match c
    case Arrived => e.PacketIn?
    case NotIpv4 => e.PacketIn? && e.packet.addr.V6?
    case Oversized => e.PacketIn? && e.packet.addr.V4? && e.packet.size > PACKET_DATA_SIZE
    case Unparsed => sized && e.packet.outcome.FailedView?
    case Unclean => sized && e.packet.outcome.FailedSanitize?
    case Unusable =>
      && sized
      && (e.packet.outcome.NoData?
          || (e.packet.outcome.Sanitized? && e.packet.outcome.tx.staticAccountKeys == []
              && cfg.sigKey(e.packet.outcome.tx.signatures[0]) !in Recency.KeysOf(s.recent)))
    case Known =>
      && sized && e.packet.outcome.Sanitized?
      && cfg.sigKey(e.packet.outcome.tx.signatures[0]) in Recency.KeysOf(s.recent)
    case Repeated => op.Some? && op.value.OpPut? && op.value.key in Recency.KeysOf(s.partial)
    case Worthless => Accepts(cfg, s, e) && Judge(cfg, s, e.packet).tx.score == 0.0
    case Leaked => Accepts(cfg, s, e) && |s.heap| + 1 == cfg.heapCap
    case Announced => e.RecentSignature?
    case Finished => Completes(s, e)
  }

  ghost function CounterOf(stats: Stats, c: Class): nat {
    match c
    case Arrived => stats.totalPackets
    case NotIpv4 => stats.nonIpv4
    case Oversized => stats.invalidMetaSize
    case Unparsed => stats.failedView
    case Unclean => stats.failedSanitize
    case Known => stats.recentlyProcessed
    case Repeated => stats.duplicatePackets
    case Unusable => stats.invalidPacketData
    case Worthless => stats.zeroScore
    case Leaked => stats.leakedPriority
    case Announced => stats.recentSignaturesReceived
    case Finished => stats.completed
  }

  ghost function Members(cfg: Config, ss: seq<State>, es: seq<Event>, i: nat, c: Class): nat
    requires i <= |es| <= |ss|
  {
    if i == 0 then 0
    else Members(cfg, ss, es, i - 1, c) + if InClass(cfg, ss[i - 1], es[i - 1], c) then 1 else 0
  }

  /** Queueing counts a leak when the heap becomes full; sending moves none of these counters. */
  lemma SendingCounts(cfg: Config, s: State, stats: Stats, tx: Scored, now: nat, done: nat, s': State, c: Class)
    requires Proper(cfg) && s.lastSend <= now && QueuedAndSent(cfg, s, stats, tx, now, done, s')
    ensures CounterOf(s'.stats, c) == CounterOf(stats, c) + if c.Leaked? && |s.heap| + 1 == cfg.heapCap then 1 else 0
    ensures s'.stats.bankingTransmissions + TotalSent(s.wire) == stats.bankingTransmissions + TotalSent(s'.wire)
  {
    hide IsMin, Drained, Recency.KeysOf;
    assert |s.heap + multiset{tx}| == |s.heap| + 1;
    if s'.wire != s.wire {
      assert s'.wire[..|s.wire|] == s.wire;
    }
  }

  ghost function TotalSent(wire: seq<Batch>): nat {
    if wire == [] then 0 else TotalSent(wire[..|wire| - 1]) + |wire[|wire| - 1].txs|
  }

  /** A packet that never reaches the cache of partial metadata moves the counter of its verdict. */
  lemma RejectedCounts(cfg: Config, s: State, e: Event, s': State, c: Class)
    requires Proper(cfg) && e.PacketIn? && Next(cfg, s, e, s') && !Judge(cfg, s, e.packet).Valued?
    ensures CounterOf(s'.stats, c) == CounterOf(s.stats, c) + if InClass(cfg, s, e, c) then 1 else 0
    ensures s'.wire == s.wire && s'.stats.bankingTransmissions == s.stats.bankingTransmissions
  {
    hide FedBack, MetaOf, ScoreOf, HashOf, Recency.KeysOf;
    if e.packet.outcome.Sanitized? {
      Recency.HasKey(s.recent, cfg.sigKey(e.packet.outcome.tx.signatures[0]));
    }
  }

  /** A valued packet belongs to none of the classes of rejected ones. */
  lemma ValuedClasses(cfg: Config, s: State, e: Event, c: Class)
    requires e.PacketIn? && Judge(cfg, s, e.packet).Valued?
    requires c.NotIpv4? || c.Oversized? || c.Unparsed? || c.Unclean? || c.Unusable? || c.Known?
    ensures !InClass(cfg, s, e, c)
  {
    hide MetaOf, ScoreOf, HashOf, Recency.KeysOf;
    Recency.HasKey(s.recent, cfg.sigKey(e.packet.outcome.tx.signatures[0]));
  }

  lemma ValuedCounts(cfg: Config, s: State, e: Event, s': State, c: Class)
    requires Proper(cfg) && e.PacketIn? && Next(cfg, s, e, s') && Judge(cfg, s, e.packet).Valued?
    ensures CounterOf(s'.stats, c) == CounterOf(s.stats, c) + if InClass(cfg, s, e, c) then 1 else 0
    ensures s'.stats.bankingTransmissions + TotalSent(s.wire) == s.stats.bankingTransmissions + TotalSent(s'.wire)
  {
    hide QueuedAndSent, Judge, Recency.KeysOf;
    var v := Judge(cfg, s, e.packet);
    if c.NotIpv4? || c.Oversized? || c.Unparsed? || c.Unclean? || c.Unusable? || c.Known? {
      ValuedClasses(cfg, s, e, c);
    }
    Recency.HasKey(s.partial, v.hash);
    if !Recency.Has(s.partial, v.hash) {
      var stats := s.stats.(totalPackets := s.stats.totalPackets + 1);
      SendingCounts(cfg, s, if v.tx.score == 0.0 then stats.(zeroScore := stats.zeroScore + 1) else stats,
                    v.tx, e.now, e.done, s', c);
    }
  }

  lemma CounterStep(cfg: Config, s: State, e: Event, s': State, c: Class)
    requires Proper(cfg) && Next(cfg, s, e, s') && !e.StatsReset?
    ensures CounterOf(s'.stats, c) == CounterOf(s.stats, c) + if InClass(cfg, s, e, c) then 1 else 0
    ensures s'.stats.bankingTransmissions + TotalSent(s.wire) == s.stats.bankingTransmissions + TotalSent(s'.wire)
  {
    hide PacketStep, Judge, FedBack, Trained, Recency.KeysOf, Recency.Put, Recency.Pop;
    if e.PacketIn? {
      if Judge(cfg, s, e.packet).Valued? {
        ValuedCounts(cfg, s, e, s', c);
      } else {
        RejectedCounts(cfg, s, e, s', c);
      }
    }
  }

  /** Without resets every counter is the number of events of its class, and the wire holds what was counted as sent. */
  lemma {:induction false} CountersExact(cfg: Config, ss: seq<State>, es: seq<Event>, i: nat, c: Class)
    requires Run(cfg, ss, es) && i < |ss| && StatsReset !in es[..i]
    ensures CounterOf(ss[i].stats, c) == Members(cfg, ss, es, i, c)
    ensures ss[i].stats.bankingTransmissions == TotalSent(ss[i].wire)
  {
    hide Next, InClass;
    if i > 0 {
      assert es[i - 1] == es[..i][i - 1];
      assert es[..i - 1] == es[..i][..i - 1];
      CountersExact(cfg, ss, es, i - 1, c);
      RunStep(cfg, ss, es, i - 1);
      CounterStep(cfg, ss[i - 1], es[i - 1], ss[i], c);
    }
  }

  // ------------------------------------------------------------- training

  /**
   A training step always sees exactly 401 entries, and with room for 80 more
   keys in each tree every frequent new key enters: no insert is refused.
   */
  lemma NoInsertRefused(cfg: Config, ss: seq<State>, es: seq<Event>, i: nat)
    requires Run(cfg, ss, es) && i < |es| && Trains(ss[i], es[i])
    requires cfg.maxIps + 80 <= cfg.treeCap && cfg.maxSigners + 80 <= cfg.treeCap
    ensures var s, txs := ss[i], Completing(ss[i], es[i].meta);
            && |txs| == 401
            && |s.ips.forward| <= cfg.treeCap && |s.signers.forward| <= cfg.treeCap
            && Least(Entrants(s.ips.forward, IpSamples(txs)), cfg.treeCap - |s.ips.forward|)
               == Entrants(s.ips.forward, IpSamples(txs))
            && Least(Entrants(s.signers.forward, SignerSamples(txs)), cfg.treeCap - |s.signers.forward|)
               == Entrants(s.signers.forward, SignerSamples(txs))
  {
    hide Next, Learned, Least, Entrants, FrequentAbsent, Paired, NonNegative, QueueOk, Recency.WellFormed;
    RunKeeps(cfg, ss, es, i);
    var s, txs := ss[i], Completing(ss[i], es[i].meta);
    NoneRefused(cfg.treeCap - |s.ips.forward|, s.ips.forward, IpSamples(txs), Median(s.ips.root));
    NoneRefused(cfg.treeCap - |s.signers.forward|, s.signers.forward, SignerSamples(txs), Median(s.signers.root));
  }

  /** The default limits of ten thousand keys leave that room in the program's trees. */
  lemma DefaultsRefuseNothing(
      hash: seq<Byte> -> nat, sigKey: seq<Byte> -> nat, budgetId: nat, targetPps: nat, ticksPerMs: nat,
      ss: seq<State>, es: seq<Event>, i: nat)
    requires Run(Deployed(hash, sigKey, budgetId, 10_000, 10_000, targetPps, ticksPerMs), ss, es)
    requires i < |es| && Trains(ss[i], es[i])
    ensures var m, batch := ss[i].ips.forward, IpSamples(Completing(ss[i], es[i].meta));
            |m| <= 10_000 && Least(Entrants(m, batch), 16384 - |m|) == Entrants(m, batch)
    ensures var m, batch := ss[i].signers.forward, SignerSamples(Completing(ss[i], es[i].meta));
            |m| <= 10_000 && Least(Entrants(m, batch), 16384 - |m|) == Entrants(m, batch)
  {
    hide Next, Least, Entrants, Trains;
    var cfg := Deployed(hash, sigKey, budgetId, 10_000, 10_000, targetPps, ticksPerMs);
    RunKeeps(cfg, ss, es, i);
    NoInsertRefused(cfg, ss, es, i);
  }

  // ------------------------------------------------------------- feedback

  /** The address key that a step feeds back, if any. */
  ghost function FeedbackKey(cfg: Config, s: State, e: Event): Option<Key> {
    if e.SigverifyFailed? then Some(ScoreKey(e.ip))
    else if e.PacketIn? && Judge(cfg, s, e.packet).Unviewable? then Some(BitsKey(Judge(cfg, s, e.packet).ip))
    else None
  }

  /** How often `k` is fed back in steps i to j. */
  ghost function Feedbacks(cfg: Config, ss: seq<State>, es: seq<Event>, i: nat, j: nat, k: Key): nat
    requires i <= j <= |es| <= |ss|
  {
    if i == j then 0
    else
      Feedbacks(cfg, ss, es, i, j - 1, k) + if FeedbackKey(cfg, ss[j - 1], es[j - 1]) == Some(k) then 1 else 0
  }

  /** `x` times 0.01 to the `n`. */
  ghost function Decayed(n: nat, x: real): real {
    if n == 0 then x else Decayed(n - 1, x) * 0.01
  }

  lemma TablesFollow(cfg: Config, s: State, e: Event, s': State)
    requires Proper(cfg) && Next(cfg, s, e, s') && !Trains(s, e)
    ensures s'.signers == s.signers
    ensures var k := FeedbackKey(cfg, s, e);
            s'.ips.forward == if k.Some? then Scaled(s.ips.forward, k.value) else s.ips.forward
  {
    hide Judge, QueuedAndSent, Trained, Recency.Put, Paired, Scaled;
  }

  /**
   Between two training steps the score of a known address key is scaled by
   exactly 0.01 per feedback under that key, whatever else happens, and no
   signer entry changes.
   */
  lemma {:induction false} FeedbackScales(cfg: Config, ss: seq<State>, es: seq<Event>, i: nat, j: nat, k: Key)
    requires Run(cfg, ss, es) && i <= j <= |es| && k in ss[i].ips.forward
    requires forall m :: i <= m < j ==> !Trains(ss[m], es[m])
    ensures ss[j].signers == ss[i].signers
    ensures k in ss[j].ips.forward
    ensures ss[j].ips.forward[k] == Decayed(Feedbacks(cfg, ss, es, i, j, k), ss[i].ips.forward[k])
    decreases j - i
  {
    hide Next, Judge, Trains;
    if i < j {
      FeedbackScales(cfg, ss, es, i, j - 1, k);
      RunStep(cfg, ss, es, j - 1);
      TablesFollow(cfg, ss[j - 1], es[j - 1], ss[j]);
    }
  }

  lemma {:induction false} DecayedProduct(n: nat, x: real, y: real, z: real)
    requires z == x * y
    ensures Decayed(n, x) * y == Decayed(n, z)
  {
    if n > 0 {
      DecayedProduct(n - 1, x, y, z);
      assert Decayed(n - 1, x) * 0.01 * y == Decayed(n - 1, x) * y * 0.01;
    }
  }

  /** The combined score of a known address and any signer, known or not, is scaled by the same factor. */
  lemma ForwardScales(cfg: Config, ss: seq<State>, es: seq<Event>, i: nat, j: nat, k: Key, signer: Key)
    requires Run(cfg, ss, es) && i <= j <= |es| && k in ss[i].ips.forward
    requires forall m :: i <= m < j ==> !Trains(ss[m], es[m])
    ensures Forward(ss[j].ips, ss[j].signers, k, signer)
            == Decayed(Feedbacks(cfg, ss, es, i, j, k), Forward(ss[i].ips, ss[i].signers, k, signer))
  {
    hide Next, Trains, Feedbacks;
    FeedbackScales(cfg, ss, es, i, j, k);
    var z := Forward(ss[i].ips, ss[i].signers, k, signer);
    DecayedProduct(
      Feedbacks(cfg, ss, es, i, j, k), TableScore(ss[i].ips, k), TableScore(ss[i].signers, signer), z);
  }

  // -------------------------------------------------------- bounded scores

  /** Every value completed in the first `i` steps is at most `hi`. */
  ghost predicate ValuesBounded(ss: seq<State>, es: seq<Event>, i: nat, hi: real)
    requires i <= |es| <= |ss|
  {
    forall j :: 0 <= j < i && Completes(ss[j], es[j]) ==>
      var txs := Completing(ss[j], es[j].meta);
      txs[|txs| - 1].value <= hi
  }

  ghost predicate Bounded(s: State, hi: real) {
    && AllWithin(0.0, hi, s.ips.forward)
    && AllWithin(0.0, hi, s.signers.forward)
    && forall i :: 0 <= i < |s.complete| ==> Within(0.0, hi, s.complete[i].value)
  }

  lemma ScaledWithin(m: map<Key, real>, k: Key, hi: real)
    requires AllWithin(0.0, hi, m)
    ensures AllWithin(0.0, hi, Scaled(m, k))
  {
  }

  lemma StepBounded(cfg: Config, s: State, e: Event, s': State, hi: real)
    requires Proper(cfg) && Inv(cfg, s) && Next(cfg, s, e, s') && Bounded(s, hi)
    requires Completes(s, e) ==> var txs := Completing(s, e.meta); txs[|txs| - 1].value <= hi
    ensures Bounded(s', hi)
  {
    hide Judge, QueuedAndSent, Recency.Put, Recency.Pop, Scaled, Learned, QueueOk, Recency.WellFormed, Paired;
    hide Inverse, Updated;
    if Completes(s, e) {
      CompletingOk(s, e.meta);
      var txs := Completing(s, e.meta);
      assert forall i :: 0 <= i < |txs| - 1 ==> txs[i] == s.complete[i];
      if Trains(s, e) {
        HullKept(cfg.treeCap, cfg.maxIps, s.ips, IpSamples(txs), s'.ips, 0.0, hi);
        HullKept(cfg.treeCap, cfg.maxSigners, s.signers, SignerSamples(txs), s'.signers, 0.0, hi);
      }
    } else {
      TablesFollow(cfg, s, e, s');
      var k := FeedbackKey(cfg, s, e);
      if k.Some? {
        ScaledWithin(s.ips.forward, k.value, hi);
      }
      assert s'.complete == s.complete;
    }
  }

  /** Over every run all scores stay between zero and the largest value ever completed. */
  lemma {:induction false} ScoresBounded(cfg: Config, ss: seq<State>, es: seq<Event>, i: nat, hi: real)
    requires Run(cfg, ss, es) && i < |ss| && ValuesBounded(ss, es, i, hi)
    ensures Bounded(ss[i], hi)
  {
    hide Next, Inv;
    if i > 0 {
      ScoresBounded(cfg, ss, es, i - 1, hi);
      RunKeeps(cfg, ss, es, i - 1);
      RunStep(cfg, ss, es, i - 1);
      StepBounded(cfg, ss[i - 1], es[i - 1], ss[i], hi);
    }
  }
}
