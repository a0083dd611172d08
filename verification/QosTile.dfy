/**
 The tile as the object that `qos/src/main.rs` runs: two caches, the model, the
 transaction container, the completed metadata and the counters, updated in
 place by the loops that empty the input channels. Its methods keep a record of
 the events taken, and the record is always a run of the state machine `Tile`.
 */
module QosTile {
  import opened Wrappers
  import opened Metas
  import opened Packets
  import opened Counters
  import opened Scores
  import opened PriorityQueue
  import opened Banking
  import opened Model
  import opened Fee
  import opened PacketHash
  import opened Tile
  import Recency
  import Lru

  /** What `try_process_packet` does: everything before the queue. */
  ghost predicate Tried(cfg: Config, s: State, p: Packet, s': State, r: Option<Scored>)
    requires Proper(cfg)
  {
    var v := Judge(cfg, s, p);
    var stats := Counted(s.stats.(totalPackets := s.stats.totalPackets + 1), v);
    match v
    case Unviewable(ip) =>
      r == None && FedBack(s.ips, BitsKey(ip), s'.ips) && s' == s.(ips := s'.ips, stats := stats)
    case Valued(hash, m, tx) =>
      var put := Recency.Put(cfg.partialCap, s.partial, hash, m);
      if put.duplicate then
        r == None
        && s' == s.(partial := put.list, stats := stats.(duplicatePackets := stats.duplicatePackets + 1))
      else
        r == Some(tx) && s' == s.(partial := put.list, stats := stats)
    case _ => r == None && s' == s.(stats := stats)
  }

  lemma TriedRejects(cfg: Config, s: State, p: Packet, now: nat, done: nat, s': State)
    requires Proper(cfg) && Tried(cfg, s, p, s', None) && s.lastSend <= now <= done
    ensures PacketStep(cfg, s, p, now, done, s')
  {
    hide Judge, FedBack, Recency.Put;
  }

  lemma TriedKeeps(cfg: Config, s: State, p: Packet, s': State, r: Option<Scored>)
    requires Proper(cfg) && Tried(cfg, s, p, s', r)
    ensures s'.lastSend == s.lastSend
  {
    hide Judge, FedBack, Recency.Put;
  }

  lemma TriedAccepts(
      cfg: Config, s: State, p: Packet, now: nat, done: nat, mid: State, tx: Scored, stats: Stats, s': State)
    requires Proper(cfg) && Tried(cfg, s, p, mid, Some(tx)) && s.lastSend <= now <= done && mid.lastSend <= now
    requires stats == if tx.score == 0.0 then mid.stats.(zeroScore := mid.stats.zeroScore + 1) else mid.stats
    requires s' == mid.(heap := s'.heap, lastSend := s'.lastSend, wire := s'.wire, stats := s'.stats)
    requires QueuedAndSent(cfg, mid.(stats := stats), stats, tx, now, done, s')
    ensures PacketStep(cfg, s, p, now, done, s')
  {
    hide Judge, FedBack, Recency.Put, Pushed, Transmitted;
    assert QueuedAndSent(cfg, s, stats, tx, now, done, s');
  }

  lemma PopMeans(l: Recency.Entries<nat, PartialMeta>, h: nat)
    ensures var popped := Recency.Pop(l, h).1;
            && (popped.Some? <==> Recency.Has(l, h))
            && (popped.Some? ==> popped.value == l[Recency.Find(l, h)])
            && (popped.None? ==> Recency.Pop(l, h).0 == l)
  {
  }

  lemma MissIsStep(cfg: Config, s: State, r: RemainingMeta)
    requires !Recency.Has(s.partial, r.packetHash)
    ensures SchedulerStep(cfg, s, r, s)
  {
  }

  lemma MergedIsStep(cfg: Config, s: State, r: RemainingMeta, s': State)
    requires Recency.Has(s.partial, r.packetHash) && |Completing(s, r)| <= BATCH_LIMIT
    requires s' == s.(partial := Recency.Pop(s.partial, r.packetHash).0, complete := Completing(s, r),
                      stats := s.stats.(completed := s.stats.completed + 1))
    ensures SchedulerStep(cfg, s, r, s')
  {
  }

  lemma TrainedIsStep(cfg: Config, s: State, r: RemainingMeta, s': State)
    requires Recency.Has(s.partial, r.packetHash) && |Completing(s, r)| > BATCH_LIMIT
    requires Trained(cfg, s, Completing(s, r), s')
    requires s' == s.(partial := Recency.Pop(s.partial, r.packetHash).0, complete := [],
                      ips := s'.ips, signers := s'.signers,
                      stats := s.stats.(completed := s.stats.completed + 1))
    ensures SchedulerStep(cfg, s, r, s')
  {
  }

  lemma RunStarts(cfg: Config, now: nat)
    requires Proper(cfg)
    ensures Run(cfg, [Init(now)], [])
  {
  }

  lemma RunExtends(cfg: Config, ss: seq<State>, es: seq<Event>, e: Event, s': State)
    requires Run(cfg, ss, es) && Next(cfg, ss[|es|], e, s')
    ensures |ss| == |es| + 1 && Run(cfg, ss + [s'], es + [e])
  {
    hide Next;
  }

  class QosTile {
    const cfg: Config
    const model: IpSignerModel
    const partialMetas: Lru.LRUCache<nat, PartialMeta>
    const recentSignatures: Lru.LRUCache<nat, ()>
    const container: TransactionContainer
    var completeMetas: seq<TxMeta>
    var stats: Stats
    ghost var states: seq<State>
    ghost var events: seq<Event>

    /** The parts are valid, separate and sized as configured. */
    ghost predicate Parts()
      reads this, model, model.ips, model.signers, partialMetas, partialMetas.nodes
      reads recentSignatures, recentSignatures.nodes, container, container.heap
    {
      && Proper(cfg)
      && model.Valid() && partialMetas.Valid() && recentSignatures.Valid() && container.Valid()
      && partialMetas as object != recentSignatures as object
      && partialMetas.nodes as object != recentSignatures.nodes as object
      && model.ips.capacity == cfg.treeCap && model.signers.capacity == cfg.treeCap
      && partialMetas.nodes.Length == cfg.partialCap && recentSignatures.nodes.Length == cfg.recentCap
      && container.heap.capacity == cfg.heapCap
      && container.maxSend == MaxSend(cfg.targetPps) && container.ticksPerMs == cfg.ticksPerMs
    }

    ghost function Abs(): State
      requires Parts()
      reads this, model, model.ips, model.signers, partialMetas, partialMetas.nodes
      reads recentSignatures, recentSignatures.nodes, container, container.heap
    {
      State(
        container.heap.inner, container.lastSend, container.wire,
        partialMetas.Contents(), recentSignatures.Contents(),
        completeMetas, model.ips.State(), model.signers.State(), stats)
    }

    /** The recorded events lead from a fresh start to the present state. */
    ghost predicate Valid()
      reads this, model, model.ips, model.signers, partialMetas, partialMetas.nodes
      reads recentSignatures, recentSignatures.nodes, container, container.heap
    {
      Parts() && |states| == |events| + 1 && Run(cfg, states, events) && states[|events|] == Abs()
    }

    /** The tile made of freshly started parts. */
    constructor (
        cfg: Config, model: IpSignerModel, partialMetas: Lru.LRUCache<nat, PartialMeta>,
        recentSignatures: Lru.LRUCache<nat, ()>, container: TransactionContainer)
      requires Proper(cfg)
      requires model.Valid() && partialMetas.Valid() && recentSignatures.Valid() && container.Valid()
      requires partialMetas as object != recentSignatures as object
      requires partialMetas.nodes as object != recentSignatures.nodes as object
      requires model.ips.capacity == cfg.treeCap && model.signers.capacity == cfg.treeCap
      requires model.ips.State() == EMPTY_TABLE && model.signers.State() == EMPTY_TABLE
      requires partialMetas.nodes.Length == cfg.partialCap && partialMetas.Contents() == []
      requires recentSignatures.nodes.Length == cfg.recentCap && recentSignatures.Contents() == []
      requires container.heap.capacity == cfg.heapCap && container.heap.inner == multiset{}
      requires container.maxSend == MaxSend(cfg.targetPps) && container.ticksPerMs == cfg.ticksPerMs
      requires container.wire == []
      ensures Valid() && this.cfg == cfg && events == [] && Abs() == Init(container.lastSend)
    {
      hide Lru.Rep, Lru.EntriesOf, Paced, Paired, Run;
      this.cfg, this.model, this.partialMetas := cfg, model, partialMetas;
      this.recentSignatures, this.container := recentSignatures, container;
      completeMetas, stats := [], NO_STATS;
      states, events := [Init(container.lastSend)], [];
      new;
      RunStarts(cfg, container.lastSend);
    }

    // ------------------------------------------------- one message at a time

    /** Record a step that has been taken. */
    ghost method Record(e: Event, s: State)
      requires Parts() && Run(cfg, states, events) && states[|events|] == s && Next(cfg, s, e, Abs())
      modifies `states, `events
      ensures Valid() && events == old(events) + [e] && states == old(states) + [Abs()]
      ensures Abs() == old(Abs())
    {
      hide Run, Next, Lru.Rep, Lru.EntriesOf, Paced, Paired;
      RunExtends(cfg, states, events, e, Abs());
      states, events := states + [Abs()], events + [e];
    }

    method OnRecentSignature(signature: seq<Byte>)
      requires Valid()
      modifies this, recentSignatures, recentSignatures.nodes
      ensures Valid() && events == old(events) + [RecentSignature(signature)]
    {
      hide Run, Lru.Rep, Lru.EntriesOf, Recency.Put, Paced, Paired;
      ghost var s := Abs();
      var _, _ := recentSignatures.Put(cfg.sigKey(signature), ());
      stats := stats.(recentSignaturesReceived := stats.recentSignaturesReceived + 1);
      Record(RecentSignature(signature), s);
    }

    method OnSigverifyFailed(ip: Ipv4)
      requires Valid()
      modifies this, model.ips
      ensures Valid() && events == old(events) + [SigverifyFailed(ip)]
    {
      hide Run, Lru.Rep, Lru.EntriesOf, Paced, FedBack, Paired;
      ghost var s := Abs();
      model.IpFeedback(ScoreKey(ip));
      Record(SigverifyFailed(ip), s);
    }

    /** Merge one scheduler result; training happens when more than 400 entries are complete. */
    method OnSchedulerResult(r: RemainingMeta) returns (trained: bool)
      requires Valid()
      modifies this, model.ips, model.signers, partialMetas, partialMetas.nodes
      ensures Valid() && events == old(events) + [SchedulerResult(r)]
      ensures old(states) <= states && trained == Trains(old(states)[|old(events)|], SchedulerResult(r))
    {
      hide Run, Lru.Rep, Lru.EntriesOf, Paced, Paired, SchedulerStep, Trains;
      ghost var s := Abs();
      trained := Absorb(r);
      Record(SchedulerResult(r), s);
    }

    method Absorb(r: RemainingMeta) returns (trained: bool)
      requires Parts()
      modifies `completeMetas, `stats, model.ips, model.signers, partialMetas, partialMetas.nodes
      ensures Parts() && SchedulerStep(cfg, old(Abs()), r, Abs())
      ensures trained == Trains(old(Abs()), SchedulerResult(r))
    {
      hide Run, Lru.Rep, Lru.EntriesOf, Paced, Paired, Complete, Updated, SchedulerStep, Recency.Pop;
      ghost var s := Abs();
      trained := false;
      var popped := partialMetas.Pop(r.packetHash);
      ghost var s1 := Abs();
      assert s1 == s.(partial := Recency.Pop(s.partial, r.packetHash).0);
      PopMeans(s.partial, r.packetHash);
      if popped.Some? {
        completeMetas := completeMetas + [Complete(popped.value.1, r)];
        stats := stats.(completed := stats.completed + 1);
        ghost var s2 := Abs();
        assert s2 == s1.(complete := Completing(s, r), stats := s.stats.(completed := s.stats.completed + 1));
        if |completeMetas| > BATCH_LIMIT {
          Train();
          trained := true;
          TrainedIsStep(cfg, s, r, Abs());
        } else {
          MergedIsStep(cfg, s, r, s2);
        }
      } else {
        MissIsStep(cfg, s, r);
      }
    }

    /** Update the model with the completed entries and drop them. */
    method Train()
      requires Parts()
      modifies `completeMetas, model.ips, model.signers
      ensures Parts() && Trained(cfg, old(Abs()), old(completeMetas), Abs())
      ensures Abs() == old(Abs()).(complete := [], ips := Abs().ips, signers := Abs().signers)
    {
      hide Run, Lru.Rep, Lru.EntriesOf, Paced, Paired, Updated;
      model.UpdateModel(completeMetas, cfg.maxSigners, cfg.maxIps);
      completeMetas := [];
    }

    /** The checks and the scoring of `try_process_packet`, in the order of the program. */
    method Classify(p: Packet) returns (v: Verdict)
      requires Parts()
      ensures v == Judge(cfg, Abs(), p)
    {
      hide Run, Lru.Rep, Lru.EntriesOf, Paced, Paired;
      hide Cus, Price, WrappedFee, Preimage;
      if p.addr.V6? {
        return NonIpv4;
      }
      if p.size > PACKET_DATA_SIZE {
        return BadSize;
      }
      match p.outcome
      case NoData => return BadData;
      case FailedView => return Unviewable(p.addr.ip);
      case FailedSanitize => return Unsanitary;
      case Sanitized(tx) =>
        var sigKey := cfg.sigKey(tx.signatures[0]);
        var isRecent := recentSignatures.Contains(sigKey);
        if isRecent {
          return Recent;
        }
        if tx.staticAccountKeys == [] {
          return BadData;
        }
        var fee := TotalFee(tx, cfg.budgetId);
        var m := NewPartialMeta(p.addr.ip, tx.staticAccountKeys[0], fee.totalFee, fee.requestedCus);
        var score := model.Forward(m.ip, m.signer)
                     * (m.totalFee as real / (if m.cus < 1 then 1 else m.cus) as real);
        var preimage := BuildPreimage(p);
        return Valued(cfg.hash(preimage), m, Scored(score, sigKey, p, ScoreKey(p.addr.ip)));
    }

    /** `try_process_packet`: count the packet, feed back a failed parse, store the partial metadata. */
    method TryProcessPacket(p: Packet) returns (r: Option<Scored>)
      requires Parts()
      modifies `stats, model.ips, partialMetas, partialMetas.nodes
      ensures Parts() && Tried(cfg, old(Abs()), p, Abs(), r)
    {
      hide Run, Lru.Rep, Lru.EntriesOf, Paced, Paired, FedBack, Recency.Put, Judge, Counted;
      r := None;
      var v := Classify(p);
      stats := Counted(stats.(totalPackets := stats.totalPackets + 1), v);
      ghost var s := Abs();
      if v.Unviewable? {
        model.IpFeedback(BitsKey(v.ip));
        assert Abs() == s.(ips := Abs().ips);
      } else if v.Valued? {
        var duplicate := Store(v.hash, v.meta);
        if !duplicate {
          r := Some(v.tx);
        }
      }
    }

    /** Store partial metadata; a resident hash makes the packet a duplicate. */
    method Store(hash: nat, m: PartialMeta) returns (duplicate: bool)
      requires Parts()
      modifies `stats, partialMetas, partialMetas.nodes
      ensures Parts()
      ensures var s, put := old(Abs()), Recency.Put(cfg.partialCap, old(Abs()).partial, hash, m);
              && duplicate == put.duplicate
              && Abs() == s.(partial := put.list,
                             stats := if duplicate then s.stats.(duplicatePackets := s.stats.duplicatePackets + 1)
                                      else s.stats)
    {
      hide Run, Lru.Rep, Lru.EntriesOf, Paced, Paired, Recency.Put;
      var evicted;
      evicted, duplicate := partialMetas.Put(hash, m);
      if duplicate {
        stats := stats.(duplicatePackets := stats.duplicatePackets + 1);
      }
    }

    /** Queue an accepted transaction and attempt a transmission. */
    method QueueAndSend(tx: Scored, now: nat, done: nat)
      requires Parts() && container.lastSend <= now <= done
      modifies `stats, container, container.heap
      ensures Parts() && QueuedAndSent(cfg, old(Abs()), old(stats), tx, now, done, Abs())
      ensures Abs() == old(Abs()).(heap := container.heap.inner, lastSend := container.lastSend,
                                   wire := container.wire, stats := stats)
      ensures container.lastSend == old(container.lastSend) || container.lastSend == done
    {
      hide Run, Lru.Rep, Lru.EntriesOf, Paced, Paired, Pushed, Transmitted, Recency.KeysOf;
      stats := container.Queue(tx, stats);
      stats := container.MaybeTransmit(stats, recentSignatures, now, done);
    }

    method OnPacket(p: Packet, now: nat, done: nat)
      requires Valid() && container.lastSend <= now <= done
      modifies this, model.ips, partialMetas, partialMetas.nodes, container, container.heap
      ensures Valid() && events == old(events) + [PacketIn(p, now, done)]
      ensures container.lastSend == old(container.lastSend) || container.lastSend == done
    {
      hide Run, Lru.Rep, Lru.EntriesOf, Paced, Paired, Tried, PacketStep, QueuedAndSent;
      ghost var s := Abs();
      var tried := TryProcessPacket(p);
      ghost var mid := Abs();
      TriedKeeps(cfg, s, p, mid, tried);
      if tried.None? {
        TriedRejects(cfg, s, p, now, done, mid);
      } else {
        if tried.value.score == 0.0 {
          stats := stats.(zeroScore := stats.zeroScore + 1);
        }
        ghost var counted := stats;
        assert Abs() == mid.(stats := counted);
        QueueAndSend(tried.value, now, done);
        TriedAccepts(cfg, s, p, now, done, mid, tried.value, counted, Abs());
      }
      Record(PacketIn(p, now, done), s);
    }

    /** The demo build drops its counters when a shared reset was requested. */
    method OnStatsReset()
      requires Valid()
      modifies this
      ensures Valid() && events == old(events) + [StatsReset]
    {
      hide Run, Lru.Rep, Lru.EntriesOf, Paced, Paired;
      ghost var s := Abs();
      stats := NO_STATS;
      Record(StatsReset, s);
    }

    // -------------------------------------------------- emptying the channels

    method ConsumeRecentSignatures(channel: seq<seq<Byte>>)
      requires Valid()
      modifies this, recentSignatures, recentSignatures.nodes
      ensures Valid() && events == old(events) + SignatureEvents(channel)
    {
      hide Valid, Run;
      var i := 0;
      assert events == old(events) + SignatureEvents(channel[..0]);
      while i < |channel|
        invariant 0 <= i <= |channel|
        invariant Valid() && events == old(events) + SignatureEvents(channel[..i])
      {
        OnRecentSignature(channel[i]);
        assert channel[..i + 1][..i] == channel[..i];
        i := i + 1;
      }
      assert channel[..|channel|] == channel;
    }

    method ConsumeSigverifySignals(channel: seq<Ipv4>)
      requires Valid()
      modifies this, model.ips
      ensures Valid() && events == old(events) + FailureEvents(channel)
    {
      hide Valid, Run;
      var i := 0;
      assert events == old(events) + FailureEvents(channel[..0]);
      while i < |channel|
        invariant 0 <= i <= |channel|
        invariant Valid() && events == old(events) + FailureEvents(channel[..i])
      {
        OnSigverifyFailed(channel[i]);
        assert channel[..i + 1][..i] == channel[..i];
        i := i + 1;
      }
      assert channel[..|channel|] == channel;
    }

    /** Takes results until the channel is empty or one of them, then the last, has trained the model. */
    method ConsumeRemainingMetas(channel: seq<RemainingMeta>) returns (taken: nat)
      requires Valid()
      modifies this, model.ips, model.signers, partialMetas, partialMetas.nodes
      ensures Valid() && taken <= |channel| && events == old(events) + ResultEvents(channel[..taken])
      ensures |states| == |events| + 1
      ensures forall k :: |old(events)| <= k < |events| - 1 ==> !Trains(states[k], events[k])
      ensures taken < |channel| ==> |old(events)| < |events| && Trains(states[|events| - 1], events[|events| - 1])
    {
      hide Run, Lru.Rep, Lru.EntriesOf, Paced, Paired, Trains;
      taken := 0;
      assert events == old(events) + ResultEvents(channel[..0]);
      while taken < |channel|
        invariant 0 <= taken <= |channel|
        invariant Valid() && events == old(events) + ResultEvents(channel[..taken])
        invariant forall k :: |old(events)| <= k < |events| ==> !Trains(states[k], events[k])
      {
        var trained := OnSchedulerResult(channel[taken]);
        assert channel[..taken + 1][..taken] == channel[..taken];
        taken := taken + 1;
        if trained {
          break;
        }
      }
    }

    /** Takes at most a thousand packets. */
    method ConsumeTransactionPackets(channel: seq<Arrival>) returns (taken: nat)
      requires Valid() && InOrder(channel, container.lastSend)
      modifies this, model.ips, partialMetas, partialMetas.nodes, container, container.heap
      ensures Valid() && taken == (if |channel| < 1000 then |channel| else 1000)
      ensures events == old(events) + PacketEvents(channel[..taken])
    {
      hide Valid, Run;
      taken := 0;
      assert events == old(events) + PacketEvents(channel[..0]);
      while taken < 1000 && taken < |channel|
        invariant 0 <= taken <= |channel| && taken <= 1000
        invariant Valid() && events == old(events) + PacketEvents(channel[..taken])
        invariant InOrder(channel[taken..], container.lastSend)
      {
        var a := channel[taken];
        OnPacket(a.packet, a.now, a.done);
        assert channel[..taken + 1][..taken] == channel[..taken];
        assert channel[taken + 1..] == channel[taken..][1..];
        taken := taken + 1;
      }
    }
  }

  /** Start the sidecar: empty model, caches and queue, and a timer read at `now`. */
  method Launch(cfg: Config, now: nat) returns (tile: QosTile)
    requires Proper(cfg)
    ensures tile.Valid() && tile.cfg == cfg && tile.events == [] && tile.Abs() == Init(now)
  {
    hide Lru.Rep, Lru.EntriesOf, Paced, Paired, Run, QosTile.Valid;
    var model := new IpSignerModel(cfg.treeCap, cfg.treeCap);
    var partialMetas := new Lru.LRUCache<nat, PartialMeta>(cfg.partialCap);
    var recentSignatures := new Lru.LRUCache<nat, ()>(cfg.recentCap);
    var container := new TransactionContainer(cfg.heapCap, cfg.targetPps, cfg.ticksPerMs, now);
    tile := new QosTile(cfg, model, partialMetas, recentSignatures, container);
  }

  /** A packet on a channel, with the clock readings taken while it is handled. */
  datatype Arrival = Arrival(packet: Packet, now: nat, done: nat)

  /** The clock never goes back. */
  ghost predicate InOrder(channel: seq<Arrival>, from: nat) {
    && (forall i :: 0 <= i < |channel| ==> from <= channel[i].now <= channel[i].done)
    && (forall i, j :: 0 <= i < j < |channel| ==> channel[i].done <= channel[j].now)
  }

  ghost function SignatureEvents(channel: seq<seq<Byte>>): seq<Event> {
    if channel == [] then []
    else SignatureEvents(channel[..|channel| - 1]) + [RecentSignature(channel[|channel| - 1])]
  }

  ghost function FailureEvents(channel: seq<Ipv4>): seq<Event> {
    if channel == [] then []
    else FailureEvents(channel[..|channel| - 1]) + [SigverifyFailed(channel[|channel| - 1])]
  }

  ghost function ResultEvents(channel: seq<RemainingMeta>): seq<Event> {
    if channel == [] then []
    else ResultEvents(channel[..|channel| - 1]) + [SchedulerResult(channel[|channel| - 1])]
  }

  ghost function PacketEvents(channel: seq<Arrival>): seq<Event> {
    if channel == [] then []
    else
      var a := channel[|channel| - 1];
      PacketEvents(channel[..|channel| - 1]) + [PacketIn(a.packet, a.now, a.done)]
  }
}
