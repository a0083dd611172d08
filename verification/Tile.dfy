/**
 The whole sidecar as a state machine: the loop body of `qos/src/main.rs` with
 `try_process_packet`, one step per message taken from a channel. The steps may
 come in any order, so every schedule of the busy loop is a run.
 */
module Tile {
  import opened Wrappers
  import opened Metas
  import opened Packets
  import opened Counters
  import opened Scores
  import opened PriorityQueue
  import opened Banking
  import opened Model
  import opened Fee
  import opened PacketHash
  import Recency

  /** `hash` and `sigKey` stand for the packet hash and the signature key, about which nothing is assumed. */
  datatype Config = Config(
    hash: seq<Byte> -> nat,
    sigKey: seq<Byte> -> nat,
    budgetId: nat,
    partialCap: nat,
    recentCap: nat,
    heapCap: nat,
    treeCap: nat,
    maxIps: nat,
    maxSigners: nat,
    targetPps: nat,
    ticksPerMs: nat)

  ghost predicate Proper(cfg: Config) {
    0 < cfg.partialCap && 0 < cfg.recentCap && 0 < cfg.heapCap && 0 < cfg.ticksPerMs
  }

  /** The program's configuration: what is fixed in the source, and what its arguments choose. */
  function Deployed(
      hash: seq<Byte> -> nat, sigKey: seq<Byte> -> nat, budgetId: nat,
      maxIps: nat, maxSigners: nat, targetPps: nat, ticksPerMs: nat): Config {
    Config(hash, sigKey, budgetId, 1024 * 1024, 1024 * 1024, 16384, 16384, maxIps, maxSigners, targetPps, ticksPerMs)
  }

  datatype State = State(
    heap: Heap,
    lastSend: nat,
    wire: seq<Batch>,
    partial: Recency.Entries<nat, PartialMeta>,
    recent: Recency.Entries<nat, ()>,
    complete: seq<TxMeta>,
    ips: Table,
    signers: Table,
    stats: Stats)

  const EMPTY_TABLE := Table(map[], {}, None)

  function Init(now: nat): State {
    State(multiset{}, now, [], [], [], [], EMPTY_TABLE, EMPTY_TABLE, NO_STATS)
  }

  datatype Event =
    | PacketIn(packet: Packet, now: nat, done: nat)
    | RecentSignature(signature: seq<Byte>)
    | SchedulerResult(meta: RemainingMeta)
    | SigverifyFailed(ip: Ipv4)
    | StatsReset

  // ------------------------------------------------------- judging a packet

  datatype Verdict =
    | NonIpv4 | BadSize | BadData | Unviewable(ip: Ipv4) | Unsanitary | Recent
    | Valued(hash: nat, meta: PartialMeta, tx: Scored)

  function TableScore(t: Table, k: Key): real {
    if k in t.forward then t.forward[k] else Median(t.root)
  }

  function MetaOf(cfg: Config, ip: Ipv4, tx: TransactionView): PartialMeta
    requires tx.staticAccountKeys != []
  {
    var cus, price := Cus(tx, cfg.budgetId), Price(tx, cfg.budgetId);
    NewPartialMeta(ip, tx.staticAccountKeys[0], WrappedFee(|tx.signatures|, cus, price), cus)
  }

  /** The combined score of an address and a signer. */
  function Forward(ips: Table, signers: Table, ip: Key, signer: Key): real {
    TableScore(ips, ip) * TableScore(signers, signer)
  }

  function ScoreOf(ips: Table, signers: Table, m: PartialMeta): real {
    Forward(ips, signers, m.ip, m.signer)
    * (m.totalFee as real / (if m.cus < 1 then 1 else m.cus) as real)
  }

  function HashOf(cfg: Config, p: Packet): nat
    requires p.addr.V4? && p.size <= PACKET_DATA_SIZE
  {
    cfg.hash(Preimage(p.buffer[..p.size], p.size, p.addr.ip))
  }

  /** What `try_process_packet` makes of a packet before it stores the partial metadata. */
  function Assess(
      cfg: Config, ips: Table, signers: Table, recent: Recency.Entries<nat, ()>, p: Packet): Verdict {
    if p.addr.V6? then NonIpv4
    else if p.size > PACKET_DATA_SIZE then BadSize
    else
      match p.outcome
      case NoData => BadData
      case FailedView => Unviewable(p.addr.ip)
      case FailedSanitize => Unsanitary
      case Sanitized(tx) =>
        var key := cfg.sigKey(tx.signatures[0]);
        if Recency.Has(recent, key) then Recent
        else if tx.staticAccountKeys == [] then BadData
        else
          var m := MetaOf(cfg, p.addr.ip, tx);
          Valued(HashOf(cfg, p), m, Scored(ScoreOf(ips, signers, m), key, p, ScoreKey(p.addr.ip)))
  }

  function Judge(cfg: Config, s: State, p: Packet): Verdict {
    Assess(cfg, s.ips, s.signers, s.recent, p)
  }

  // -------------------------------------------------------------- the steps

  /** An accepted transaction is queued, then a transmission is attempted. */
  ghost predicate QueuedAndSent(cfg: Config, s: State, stats: Stats, tx: Scored, now: nat, done: nat, s': State)
    requires Proper(cfg) && s.lastSend <= now
  {
    exists h: Heap, leaked: Option<Scored> ::
      && Pushed(cfg.heapCap, s.heap, tx, h, leaked)
      && Transmitted(
           h, s.lastSend, s.wire,
           if leaked.Some? then stats.(leakedPriority := stats.leakedPriority + 1) else stats,
           s'.heap, s'.lastSend, s'.wire, s'.stats,
           Recency.KeysOf(s.recent), MaxSend(cfg.targetPps), cfg.ticksPerMs, now, done)
  }

  ghost predicate ValuedStep(
      cfg: Config, s: State, stats: Stats, hash: nat, m: PartialMeta, tx: Scored, now: nat, done: nat, s': State)
    requires Proper(cfg) && s.lastSend <= now
  {
    var put := Recency.Put(cfg.partialCap, s.partial, hash, m);
    if put.duplicate then
      s' == s.(partial := put.list, stats := stats.(duplicatePackets := stats.duplicatePackets + 1))
    else
      var stats' := if tx.score == 0.0 then stats.(zeroScore := stats.zeroScore + 1) else stats;
      && s' == s.(partial := put.list, heap := s'.heap, lastSend := s'.lastSend, wire := s'.wire, stats := s'.stats)
      && QueuedAndSent(cfg, s, stats', tx, now, done, s')
  }

  /** The counter that a packet judged `v` moves; a valued packet is counted later. */
  function Counted(stats: Stats, v: Verdict): Stats {
    match v
    case NonIpv4 => stats.(nonIpv4 := stats.nonIpv4 + 1)
    case BadSize => stats.(invalidMetaSize := stats.invalidMetaSize + 1)
    case BadData => stats.(invalidPacketData := stats.invalidPacketData + 1)
    case Unviewable(_) => stats.(failedView := stats.failedView + 1)
    case Unsanitary => stats.(failedSanitize := stats.failedSanitize + 1)
    case Recent => stats.(recentlyProcessed := stats.recentlyProcessed + 1)
    case Valued(_, _, _) => stats
  }

  ghost predicate PacketStep(cfg: Config, s: State, p: Packet, now: nat, done: nat, s': State)
    requires Proper(cfg)
  {
    var v := Judge(cfg, s, p);
    var stats := Counted(s.stats.(totalPackets := s.stats.totalPackets + 1), v);
    && s.lastSend <= now <= done
    && match v
       case Unviewable(ip) => FedBack(s.ips, BitsKey(ip), s'.ips) && s' == s.(ips := s'.ips, stats := stats)
       case Valued(hash, m, tx) => ValuedStep(cfg, s, stats, hash, m, tx, now, done, s')
       case _ => s' == s.(stats := stats)
  }

  function RecentStep(cfg: Config, s: State, signature: seq<Byte>): State
    requires 0 < cfg.recentCap
  {
    s.(recent := Recency.Put(cfg.recentCap, s.recent, cfg.sigKey(signature), ()).list,
       stats := s.stats.(recentSignaturesReceived := s.stats.recentSignaturesReceived + 1))
  }

  const BATCH_LIMIT: nat := 400

  /** The completed entries once the result `r` has been merged. */
  function Completing(s: State, r: RemainingMeta): seq<TxMeta>
    requires Recency.Has(s.partial, r.packetHash)
  {
    s.complete + [Complete(s.partial[Recency.Find(s.partial, r.packetHash)].1, r)]
  }

  /** A scheduler result finds its partial metadata. */
  ghost predicate Completes(s: State, e: Event) {
    e.SchedulerResult? && Recency.Has(s.partial, e.meta.packetHash)
  }

  /** The step trains the model. */
  ghost predicate Trains(s: State, e: Event) {
    Completes(s, e) && |Completing(s, e.meta)| > BATCH_LIMIT
  }

  ghost predicate SchedulerStep(cfg: Config, s: State, r: RemainingMeta, s': State)
  {
    if !Recency.Has(s.partial, r.packetHash) then s' == s
    else
      var complete := Completing(s, r);
      && s' == s.(partial := Recency.Pop(s.partial, r.packetHash).0,
                  complete := if |complete| > BATCH_LIMIT then [] else complete,
                  ips := s'.ips, signers := s'.signers,
                  stats := s.stats.(completed := s.stats.completed + 1))
      && if |complete| > BATCH_LIMIT then Trained(cfg, s, complete, s')
         else s'.ips == s.ips && s'.signers == s.signers
  }

  ghost predicate Trained(cfg: Config, s: State, txs: seq<TxMeta>, s': State) {
    && |s.ips.forward| <= cfg.treeCap && |s.signers.forward| <= cfg.treeCap
    && Updated(cfg.treeCap, cfg.maxIps, s.ips, IpSamples(txs), s'.ips)
    && Updated(cfg.treeCap, cfg.maxSigners, s.signers, SignerSamples(txs), s'.signers)
  }

  ghost predicate Next(cfg: Config, s: State, e: Event, s': State)
    requires Proper(cfg)
  {
    match e
    case PacketIn(p, now, done) => PacketStep(cfg, s, p, now, done, s')
    case RecentSignature(signature) => s' == RecentStep(cfg, s, signature)
    case SchedulerResult(r) => SchedulerStep(cfg, s, r, s')
    case SigverifyFailed(ip) => FedBack(s.ips, ScoreKey(ip), s'.ips) && s' == s.(ips := s'.ips)
    case StatsReset => s' == s.(stats := NO_STATS)
  }

  /** A run: the states met and the events between them, from a fresh start. */
  ghost predicate Run(cfg: Config, ss: seq<State>, es: seq<Event>) {
    && Proper(cfg)
    && |ss| == |es| + 1
    && ss[0] == Init(ss[0].lastSend)
    && forall i, j :: 0 <= i < j < |ss| && j <= i + 1 ==> Next(cfg, ss[i], es[i], ss[j])
  }

  // ------------------------------------------------ what every step keeps

  ghost predicate NonNegative(m: map<Key, real>) {
    forall k :: k in m ==> m[k] >= 0.0
  }

  ghost predicate TableOk(cfg: Config, limit: nat, t: Table) {
    && Paired(t)
    && |t.forward| <= limit && |t.forward| <= cfg.treeCap
    && NonNegative(t.forward)
  }

  ghost predicate QueueOk(cfg: Config, s: State) {
    && |s.heap| < cfg.heapCap
    && Paced(s.wire, SEND_INTERVAL_MS * cfg.ticksPerMs, MaxSend(cfg.targetPps))
    && (s.wire != [] ==> s.wire[|s.wire| - 1].finish == s.lastSend)
  }

  ghost predicate BatchOk(txs: seq<TxMeta>) {
    |txs| <= BATCH_LIMIT && forall i :: 0 <= i < |txs| ==> txs[i].value >= 0.0
  }

  ghost predicate Inv(cfg: Config, s: State) {
    && Recency.WellFormed(cfg.partialCap, s.partial)
    && Recency.WellFormed(cfg.recentCap, s.recent)
    && QueueOk(cfg, s)
    && BatchOk(s.complete)
    && TableOk(cfg, cfg.maxIps, s.ips)
    && TableOk(cfg, cfg.maxSigners, s.signers)
  }

  lemma FedBackKeeps(cfg: Config, limit: nat, t: Table, k: Key, t': Table)
    requires TableOk(cfg, limit, t) && FedBack(t, k, t')
    ensures TableOk(cfg, limit, t')
  {
    if k in t.forward {
      assert t'.forward.Keys == t.forward.Keys;
      assert |t'.forward| == |t.forward|;
    }
  }

  lemma PushCards(n: nat, h: Heap, x: Scored, h': Heap, leaked: Option<Scored>)
    requires |h| < n && Pushed(n, h, x, h', leaked)
    ensures |h'| < n
    ensures |h'| + (if leaked.Some? then 1 else 0) == |h| + 1
  {
    if leaked.Some? {
      RemoveCards(h + multiset{x}, leaked.value);
    }
  }

  lemma DrainCards(h: Heap, recent: set<nat>, n: nat, sent: seq<Scored>, dropped: Heap, rest: Heap)
    requires Drained(h, recent, n, sent, dropped, rest)
    ensures |h| == |sent| + |dropped| + |rest|
  {
    assert |multiset(sent)| == |sent|;
    assert |multiset(sent) + dropped| == |sent| + |dropped|;
  }
}
