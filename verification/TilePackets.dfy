/** The laws of the tile about single packets: what each is scored, stored, learned and punished by. */
module TilePackets {
  import opened Wrappers
  import opened Basics
  import opened Metas
  import opened Packets
  import opened Scores
  import opened PriorityQueue
  import opened Banking
  import opened Model
  import opened Fee
  import opened PacketHash
  import opened Tile
  import opened TileInvariant
  import opened TileTheorems
  import opened TileLedger
  import Recency

  // -------------------------------------------------------- judging a packet

  /** A packet is valued exactly when it holds a usable transaction whose signature is not recent. */
  lemma ValuedIff(cfg: Config, s: State, p: Packet)
    ensures Judge(cfg, s, p).Valued?
            <==> && p.addr.V4? && p.size <= 1232 && p.outcome.Sanitized?
                 && p.outcome.tx.staticAccountKeys != []
                 && cfg.sigKey(p.outcome.tx.signatures[0]) !in Recency.KeysOf(s.recent)
  {
    hide MetaOf, ScoreOf, HashOf, Recency.KeysOf;
    if p.outcome.Sanitized? {
      Recency.HasKey(s.recent, cfg.sigKey(p.outcome.tx.signatures[0]));
    }
  }

  /** An address as its octets in little-endian order. */
  ghost predicate Names(key: nat, ip: Ipv4) {
    key == (ip.a as int) + 0x100 * (ip.b as int) + 0x1_0000 * (ip.c as int) + 0x100_0000 * (ip.d as int)
  }

  /** The fee when it fits into 64 bits. */
  ghost predicate Costs(fee: nat, signatures: nat, cus: nat, price: nat) {
    var exact := 5000 * signatures + cus * price / 1_000_000;
    exact < 0x1_0000_0000_0000_0000 ==> fee == exact
  }

  lemma WrappedCosts(signatures: nat, cus: nat, price: nat)
    ensures Costs(WrappedFee(signatures, cus, price), signatures, cus, price)
  {
    ExactIffFits(signatures, cus, price);
  }

  /**
   What is known of a valued packet: the address key and first static account
   key it is scored and learned under, its fee, and that it is queued as itself.
   */
  lemma ValuedPacket(cfg: Config, s: State, p: Packet)
    requires Judge(cfg, s, p).Valued?
    ensures p.addr.V4? && p.outcome.Sanitized? && p.outcome.tx.staticAccountKeys != []
    ensures var v, tx := Judge(cfg, s, p), p.outcome.tx;
            && Names(v.meta.ip, p.addr.ip) && Names(v.tx.ipv4, p.addr.ip)
            && v.meta.signer == tx.staticAccountKeys[0]
            && v.meta.cus == Cus(tx, cfg.budgetId)
            && Costs(v.meta.totalFee, |tx.signatures|, Cus(tx, cfg.budgetId), Price(tx, cfg.budgetId))
            && v.tx.packet == p && v.tx.sigKey == cfg.sigKey(tx.signatures[0])
  {
    hide ScoreOf, HashOf, Costs, WrappedFee, Cus, Price;
    var tx := p.outcome.tx;
    WrappedCosts(|tx.signatures|, Cus(tx, cfg.budgetId), Price(tx, cfg.budgetId));
  }

  /** The score of a key: its own when known, one in an empty table, and else that of the resident at the root. */
  ghost predicate IsScoreOf(t: Table, k: Key, x: real) {
    if k in t.forward then x == t.forward[k]
    else if t.forward == map[] then x == 1.0
    else t.root.Some? && t.root.value.1 in t.forward && x == t.forward[t.root.value.1]
  }

  lemma TableScores(t: Table, k: Key)
    requires Paired(t)
    ensures IsScoreOf(t, k, TableScore(t, k))
  {
    if k !in t.forward {
      if t.forward == map[] {
        assert t.inverse == {};
      } else {
        var r :| r in t.forward;
        MedianIsScore(t, r);
      }
    }
  }

  lemma Rearrange(a: real, b: real, fee: real, n: real)
    requires n > 0.0
    ensures a * b * (fee / n) * n == a * b * fee
  {
    assert fee / n * n == fee;
    assert a * b * (fee / n) * n == a * b * (fee / n * n);
  }

  /**
   In every run a packet scores the product of its address's and its signer's
   score and its fee per compute unit, of which there is at least one.
   */
  lemma PacketScore(cfg: Config, ss: seq<State>, es: seq<Event>, i: nat, p: Packet) returns (a: real, b: real)
    requires Run(cfg, ss, es) && i < |ss| && Judge(cfg, ss[i], p).Valued?
    ensures var v := Judge(cfg, ss[i], p);
            && IsScoreOf(ss[i].ips, v.meta.ip, a) && IsScoreOf(ss[i].signers, v.meta.signer, b)
            && v.tx.score * (if v.meta.cus == 0 then 1.0 else v.meta.cus as real) == a * b * v.meta.totalFee as real
  {
    hide Next, Paired, Judge, ScoreOf, IsScoreOf, TableScore, NonNegative, QueueOk, BatchOk, Recency.WellFormed;
    RunKeeps(cfg, ss, es, i);
    var m := Judge(cfg, ss[i], p).meta;
    a, b := TableScore(ss[i].ips, m.ip), TableScore(ss[i].signers, m.signer);
    JudgedByMeta(cfg, ss[i], p);
    ScoreIsProduct(ss[i].ips, ss[i].signers, m);
    TableScores(ss[i].ips, m.ip);
    TableScores(ss[i].signers, m.signer);
  }

  lemma JudgedByMeta(cfg: Config, s: State, p: Packet)
    requires Judge(cfg, s, p).Valued?
    ensures Judge(cfg, s, p).tx.score == ScoreOf(s.ips, s.signers, Judge(cfg, s, p).meta)
  {
    hide ScoreOf, MetaOf, HashOf;
  }

  lemma ScoreIsProduct(ips: Table, signers: Table, m: PartialMeta)
    ensures ScoreOf(ips, signers, m) * (if m.cus == 0 then 1.0 else m.cus as real)
            == TableScore(ips, m.ip) * TableScore(signers, m.signer) * m.totalFee as real
  {
    hide TableScore;
    Rearrange(TableScore(ips, m.ip), TableScore(signers, m.signer), m.totalFee as real,
              if m.cus == 0 then 1.0 else m.cus as real);
  }

  /** With a hash without collisions two valued packets share a hash exactly when payload and address agree. */
  lemma HashTellsPackets(cfg: Config, s: State, p: Packet, s': State, q: Packet)
    requires forall x, y :: cfg.hash(x) == cfg.hash(y) ==> x == y
    requires Judge(cfg, s, p).Valued? && Judge(cfg, s', q).Valued?
    ensures p.size <= 1232 && q.size <= 1232
    ensures Judge(cfg, s, p).hash == Judge(cfg, s', q).hash
            <==> p.buffer[..p.size] == q.buffer[..q.size] && p.addr == q.addr
  {
    hide MetaOf, ScoreOf, Preimage;
    PreimageInjective(p.buffer[..p.size], p.addr.ip, q.buffer[..q.size], q.addr.ip);
  }

  // ------------------------------------------------------------- feedback

  function Backwards(ip: Ipv4): Ipv4 {
    Ipv4(ip.d, ip.c, ip.b, ip.a)
  }

  /**
   The events that lower the score of address `ip`: a failed signature check of
   it, and a packet that fails to parse from the address that reads backwards.
   */
  ghost predicate Penalizes(e: Event, ip: Ipv4) {
    || e == SigverifyFailed(ip)
    || (&& e.PacketIn? && e.packet.addr == V4(Backwards(ip))
        && e.packet.size <= 1232 && e.packet.outcome.FailedView?)
  }

  ghost function Penalties(es: seq<Event>, i: nat, j: nat, ip: Ipv4): nat
    requires i <= j <= |es|
  {
    if i == j then 0 else Penalties(es, i, j - 1, ip) + if Penalizes(es[j - 1], ip) then 1 else 0
  }

  lemma FeedbackIsPenalty(cfg: Config, s: State, e: Event, ip: Ipv4)
    ensures FeedbackKey(cfg, s, e) == Some(ScoreKey(ip)) <==> Penalizes(e, ip)
  {
    hide MetaOf, ScoreOf, HashOf;
    if e.SigverifyFailed? {
      KeysInjective(e.ip, ip);
    } else if e.PacketIn? && e.packet.addr.V4? {
      var from := e.packet.addr.ip;
      assert ScoreKey(Backwards(from)) == BitsKey(from);
      KeysInjective(Backwards(from), ip);
    }
  }

  lemma {:induction false} FeedbacksArePenalties(
      cfg: Config, ss: seq<State>, es: seq<Event>, i: nat, j: nat, ip: Ipv4)
    requires i <= j <= |es| <= |ss|
    ensures Feedbacks(cfg, ss, es, i, j, ScoreKey(ip)) == Penalties(es, i, j, ip)
    decreases j - i
  {
    hide FeedbackKey, Penalizes, ScoreKey;
    if i < j {
      FeedbacksArePenalties(cfg, ss, es, i, j - 1, ip);
      FeedbackIsPenalty(cfg, ss[j - 1], es[j - 1], ip);
    }
  }

  /** The address key of a packet is known to the model. */
  ghost predicate KnownSender(s: State, p: Packet) {
    p.addr.V4? && exists k :: k in s.ips.forward && Names(k, p.addr.ip)
  }

  /** A packet's score is its combined score times a factor that does not depend on the tables. */
  lemma ScoreSplits(cfg: Config, s: State, p: Packet, s': State) returns (rate: real)
    requires Judge(cfg, s, p).Valued? && Judge(cfg, s', p).Valued?
    ensures var m := Judge(cfg, s, p).meta;
            && p.addr.V4? && m.ip == ScoreKey(p.addr.ip)
            && Judge(cfg, s, p).tx.score == Forward(s.ips, s.signers, m.ip, m.signer) * rate
            && Judge(cfg, s', p).tx.score == Forward(s'.ips, s'.signers, m.ip, m.signer) * rate
  {
    hide HashOf, Forward, Cus, Price, WrappedFee;
    var m := Judge(cfg, s, p).meta;
    rate := m.totalFee as real / (if m.cus < 1 then 1 else m.cus) as real;
  }

  /**
   The penalty of a sender: with no training between, the score of one and the
   same packet from a known address is scaled by exactly 0.01 for each event
   that penalizes the address, whatever else happens.
   */
  lemma SenderPenalty(cfg: Config, ss: seq<State>, es: seq<Event>, i: nat, j: nat, p: Packet)
    requires Run(cfg, ss, es) && i <= j <= |es|
    requires forall m :: i <= m < j ==> !Trains(ss[m], es[m])
    requires Judge(cfg, ss[i], p).Valued? && Judge(cfg, ss[j], p).Valued? && KnownSender(ss[i], p)
    ensures Judge(cfg, ss[j], p).tx.score
            == Decayed(Penalties(es, i, j, p.addr.ip), Judge(cfg, ss[i], p).tx.score)
  {
    hide Next, Trains, Judge, Forward, Feedbacks;
    var rate := ScoreSplits(cfg, ss[i], p, ss[j]);
    var m, n := Judge(cfg, ss[i], p).meta, Penalties(es, i, j, p.addr.ip);
    ForwardScales(cfg, ss, es, i, j, m.ip, m.signer);
    FeedbacksArePenalties(cfg, ss, es, i, j, p.addr.ip);
    DecayedProduct(n, Forward(ss[i].ips, ss[i].signers, m.ip, m.signer), rate, Judge(cfg, ss[i], p).tx.score);
  }

  /** Only the recent-signature channel can make a valued packet lose its value. */
  lemma StaysValued(cfg: Config, s: State, e: Event, s': State, p: Packet)
    requires Proper(cfg) && Next(cfg, s, e, s') && !e.RecentSignature? && Judge(cfg, s, p).Valued?
    ensures Judge(cfg, s', p).Valued?
  {
    hide Next, MetaOf, ScoreOf, HashOf;
    OnlySignaturesTouchRecent(cfg, s, e, s');
  }

  /** One step: a packet from a known address loses 99 percent of its score if the step penalizes the address. */
  lemma StepPenalty(cfg: Config, s: State, e: Event, s': State, p: Packet)
    requires Proper(cfg) && Next(cfg, s, e, s') && !Trains(s, e)
    requires Judge(cfg, s, p).Valued? && Judge(cfg, s', p).Valued? && KnownSender(s, p)
    ensures Judge(cfg, s', p).tx.score == Judge(cfg, s, p).tx.score * if Penalizes(e, p.addr.ip) then 0.01 else 1.0
  {
    hide Next, Trains, Judge, Penalizes;
    var rate := ScoreSplits(cfg, s, p, s');
    var m := Judge(cfg, s, p).meta;
    TablesFollow(cfg, s, e, s');
    FeedbackIsPenalty(cfg, s, e, p.addr.ip);
    var x, y := TableScore(s.ips, m.ip), TableScore(s.signers, m.signer);
    var factor := if Penalizes(e, p.addr.ip) then 0.01 else 1.0;
    assert TableScore(s'.ips, m.ip) == x * factor;
    assert x * factor * y * rate == x * y * rate * factor;
  }

  /** A failed signature check scales the score of packets from its address, and of no other known one. */
  lemma SigverifyHitsSender(cfg: Config, s: State, ip: Ipv4, s': State, q: Packet)
    requires Proper(cfg) && Next(cfg, s, SigverifyFailed(ip), s')
    requires Judge(cfg, s, q).Valued? && KnownSender(s, q)
    ensures Judge(cfg, s', q).Valued?
    ensures Judge(cfg, s', q).tx.score == Judge(cfg, s, q).tx.score * if q.addr == V4(ip) then 0.01 else 1.0
  {
    hide Next, Judge;
    StaysValued(cfg, s, SigverifyFailed(ip), s', q);
    StepPenalty(cfg, s, SigverifyFailed(ip), s', q);
  }

  /**
   A packet that fails to parse lowers the score of packets from its own sender
   exactly when the sender's address reads the same backwards: the feedback uses
   the other byte order.
   */
  lemma ParseFailureHitsSenderIff(cfg: Config, s: State, p: Packet, now: nat, done: nat, s': State, q: Packet)
    requires Proper(cfg) && Next(cfg, s, PacketIn(p, now, done), s')
    requires p.addr.V4? && p.size <= 1232 && p.outcome.FailedView?
    requires q.addr == p.addr && Judge(cfg, s, q).Valued? && KnownSender(s, q) && Judge(cfg, s, q).tx.score > 0.0
    ensures Judge(cfg, s', q).Valued?
    ensures Judge(cfg, s', q).tx.score < Judge(cfg, s, q).tx.score
            <==> p.addr.ip.a == p.addr.ip.d && p.addr.ip.b == p.addr.ip.c
  {
    hide Next, Judge;
    StaysValued(cfg, s, PacketIn(p, now, done), s', q);
    StepPenalty(cfg, s, PacketIn(p, now, done), s', q);
  }

  // ---------------------------------------------------- what is completed

  /** The packet is valued under hash `h`. */
  ghost predicate ValuedUnder(cfg: Config, s: State, e: Event, h: nat) {
    e.PacketIn? && Judge(cfg, s, e.packet).Valued? && Judge(cfg, s, e.packet).hash == h
  }

  /** Metadata was last stored under a hash by the last packet valued under it. */
  lemma {:induction false} LastPutEvent(cfg: Config, ss: seq<State>, es: seq<Event>, i: nat, h: nat)
    returns (j: nat)
    requires i <= |es| <= |ss| && LastPut(cfg, ss, es, i, h).Some?
    ensures j < i && ValuedUnder(cfg, ss[j], es[j], h)
    ensures Judge(cfg, ss[j], es[j].packet).meta == LastPut(cfg, ss, es, i, h).value
    ensures forall m :: j < m < i ==> !ValuedUnder(cfg, ss[m], es[m], h)
  {
    hide Judge;
    if ValuedUnder(cfg, ss[i - 1], es[i - 1], h) {
      j := i - 1;
    } else {
      j := LastPutEvent(cfg, ss, es, i - 1, h);
    }
  }

  /**
   A completed entry comes from the last packet valued under its hash: it carries
   that packet's address key and first static account key, and is worth ten times
   its fee per nanosecond executed, or its fee per 100 microseconds.
   */
  lemma CompletedFromPacket(cfg: Config, ss: seq<State>, es: seq<Event>, i: nat) returns (j: nat, tx: TxMeta)
    requires Run(cfg, ss, es) && i < |es| && Completes(ss[i], es[i])
    ensures j < i && ValuedUnder(cfg, ss[j], es[j], es[i].meta.packetHash)
    ensures forall m :: j < m < i ==> !ValuedUnder(cfg, ss[m], es[m], es[i].meta.packetHash)
    ensures Completing(ss[i], es[i].meta) == ss[i].complete + [tx]
    ensures var p, nanos := es[j].packet, es[i].meta.executionNanos;
            var fee := Judge(cfg, ss[j], p).meta.totalFee as real;
            && p.addr.V4? && Names(tx.ip, p.addr.ip)
            && p.outcome.Sanitized? && p.outcome.tx.staticAccountKeys != []
            && tx.signer == p.outcome.tx.staticAccountKeys[0]
            && (nanos > 0 ==> tx.value * nanos as real == 10.0 * fee)
            && (nanos == 0 ==> tx.value * 100_000.0 == fee)
  {
    hide Next, Judge, Complete, ValuedUnder;
    CompletesLastPut(cfg, ss, es, i);
    j := LastPutEvent(cfg, ss, es, i, es[i].meta.packetHash);
    tx := CompletedEntry(cfg, ss[j], es[j], es[i].meta);
  }

  lemma CompletedEntry(cfg: Config, s: State, e: Event, r: RemainingMeta) returns (tx: TxMeta)
    requires ValuedUnder(cfg, s, e, r.packetHash)
    ensures tx == Complete(Judge(cfg, s, e.packet).meta, r)
    ensures var p, nanos := e.packet, r.executionNanos;
            var fee := Judge(cfg, s, p).meta.totalFee as real;
            && p.addr.V4? && Names(tx.ip, p.addr.ip)
            && p.outcome.Sanitized? && p.outcome.tx.staticAccountKeys != []
            && tx.signer == p.outcome.tx.staticAccountKeys[0]
            && (nanos > 0 ==> tx.value * nanos as real == 10.0 * fee)
            && (nanos == 0 ==> tx.value * 100_000.0 == fee)
  {
    hide Judge, Complete, Costs;
    var m := Judge(cfg, s, e.packet).meta;
    tx := Complete(m, r);
    ValuedPacket(cfg, s, e.packet);
    CompleteValue(m, r);
  }

  // ----------------------------------------------------- when it trains

  /** Everything completed in the first `i` steps, in order. */
  ghost function AllCompleted(cfg: Config, ss: seq<State>, es: seq<Event>, i: nat): seq<TxMeta>
    requires i <= |es| <= |ss|
  {
    if i == 0 then []
    else if Completes(ss[i - 1], es[i - 1]) then
      var m := LastPut(cfg, ss, es, i - 1, es[i - 1].meta.packetHash);
      AllCompleted(cfg, ss, es, i - 1) + if m.Some? then [Complete(m.value, es[i - 1].meta)] else []
    else AllCompleted(cfg, ss, es, i - 1)
  }

  lemma BatchStep(cfg: Config, s: State, e: Event, s': State)
    requires Proper(cfg) && Next(cfg, s, e, s')
    ensures Completes(s, e) ==>
              s'.complete == if |Completing(s, e.meta)| > 400 then [] else Completing(s, e.meta)
    ensures !Completes(s, e) ==> s'.complete == s.complete
  {
    hide Judge, QueuedAndSent, FedBack, Trained, Recency.Put, Recency.Pop, Complete;
  }

  /** What was completed since the last full 401 entries. */
  ghost function Unlearned(all: seq<TxMeta>): seq<TxMeta> {
    all[|all| - |all| % 401..]
  }

  /** The batch in hand is what was completed since the last full 401 entries. */
  lemma {:induction false} BatchExact(cfg: Config, ss: seq<State>, es: seq<Event>, i: nat)
    requires Run(cfg, ss, es) && i < |ss|
    ensures ss[i].complete == Unlearned(AllCompleted(cfg, ss, es, i))
  {
    hide Next, LastPut, Completes, Complete, Completing, Unlearned;
    var all := AllCompleted(cfg, ss, es, i);
    if i == 0 {
      SuffixEmpty();
    } else {
      BatchExact(cfg, ss, es, i - 1);
      RunStep(cfg, ss, es, i - 1);
      BatchStep(cfg, ss[i - 1], es[i - 1], ss[i]);
      if Completes(ss[i - 1], es[i - 1]) {
        CompletesLastPut(cfg, ss, es, i - 1);
        SuffixSize(AllCompleted(cfg, ss, es, i - 1));
        SuffixSnoc(AllCompleted(cfg, ss, es, i - 1), all[|all| - 1]);
      }
    }
  }

  lemma SuffixEmpty()
    ensures Unlearned([]) == []
  {
  }

  lemma SuffixSize(all: seq<TxMeta>)
    ensures |Unlearned(all)| == |all| % 401 <= 400
  {
  }

  /** The model trains exactly when every 401st entry is completed. */
  lemma TrainsEvery401(cfg: Config, ss: seq<State>, es: seq<Event>, i: nat)
    requires Run(cfg, ss, es) && i < |es|
    ensures Trains(ss[i], es[i])
            <==> Completes(ss[i], es[i]) && |Unlearned(AllCompleted(cfg, ss, es, i))| == 400
  {
    hide Next, LastPut, AllCompleted, Unlearned, Complete, Recency.Has, Recency.Find;
    BatchExact(cfg, ss, es, i);
    SuffixSize(AllCompleted(cfg, ss, es, i));
  }

  /** It trains on the last 401 entries completed. */
  lemma TrainsOnLast401(cfg: Config, ss: seq<State>, es: seq<Event>, i: nat)
    requires Run(cfg, ss, es) && i < |es| && Trains(ss[i], es[i])
    ensures LastBatch(AllCompleted(cfg, ss, es, i + 1), Completing(ss[i], es[i].meta))
  {
    hide Next, LastPut, Complete, Recency.Has, Recency.Find;
    BatchExact(cfg, ss, es, i);
    TrainsEvery401(cfg, ss, es, i);
    CompletesLastPut(cfg, ss, es, i);
  }

  ghost predicate LastBatch(all: seq<TxMeta>, txs: seq<TxMeta>) {
    |all| >= 401 && txs == all[|all| - 401..]
  }

  lemma SuffixSnoc(all: seq<TxMeta>, x: TxMeta)
    ensures Unlearned(all + [x]) == if |Unlearned(all)| == 400 then [] else Unlearned(all) + [x]
  {
  }
  // ---------------------------------------------------- what it learns

  /** The transactions of a batch that have address key `k`, and those that have signer `k`. */
  ghost function FromAddress(txs: seq<TxMeta>, k: Key): set<nat> {
    set x | 0 <= x < |txs| && txs[x].ip == k
  }

  ghost function FromSigner(txs: seq<TxMeta>, k: Key): set<nat> {
    set x | 0 <= x < |txs| && txs[x].signer == k
  }

  lemma SamplesAre(txs: seq<TxMeta>, k: Key)
    ensures SamplesOf(IpSamples(txs), k) == FromAddress(txs, k)
    ensures SamplesOf(SignerSamples(txs), k) == FromSigner(txs, k)
  {
  }

  /**
   What training makes of key `k` with `n` samples of total `sum`: a resident
   moves a twentieth of the way to its mean, or with fewer than five samples to
   the score of the resident at the root; a new key has five samples and its mean.
   */
  ghost predicate Teaches(t: Table, k: Key, n: nat, sum: real, target: real, score: real) {
    if k in t.forward then
      && (n >= 5 ==> target * n as real == sum)
      && (n <= 4 ==> t.root.Some? && t.root.value.1 in t.forward && target == t.forward[t.root.value.1])
      && score == 0.95 * t.forward[k] + 0.05 * target
    else
      n >= 5 && score * n as real == sum
  }

  lemma UpdateTeaches(cap: nat, limit: nat, t: Table, batch: seq<(Key, real)>, t': Table, k: Key)
    returns (target: real)
    requires Paired(t) && |t.forward| <= cap && Updated(cap, limit, t, batch, t') && k in t'.forward
    ensures Teaches(t, k, |SamplesOf(batch, k)|, Sum(batch, k), target, t'.forward[k])
  {
    hide Updated, SamplesOf, Sum;
    target := UpdateMoves(cap, limit, t, batch, t', k);
    if k in t.forward {
      MedianIsScore(t, k);
    }
  }

  lemma TrainedStep(cfg: Config, ss: seq<State>, es: seq<Event>, i: nat)
    requires Run(cfg, ss, es) && i < |es| && Trains(ss[i], es[i])
    ensures var s, txs, s' := ss[i], Completing(ss[i], es[i].meta), ss[i + 1];
            && Paired(s.ips) && Paired(s.signers) && Trained(cfg, s, txs, s')
  {
    hide Inv, Paired, Trained, Recency.Has, Recency.Find, Recency.Pop, Complete, PacketStep;
    RunKeeps(cfg, ss, es, i);
    RunStep(cfg, ss, es, i);
    InvPaired(cfg, ss[i]);
  }

  lemma InvPaired(cfg: Config, s: State)
    requires Inv(cfg, s)
    ensures Paired(s.ips) && Paired(s.signers)
    ensures |s.ips.forward| <= cfg.maxIps && |s.signers.forward| <= cfg.maxSigners
  {
  }

  /** What a training step of any run makes of each address key it leaves in the model. */
  lemma AddressTraining(cfg: Config, ss: seq<State>, es: seq<Event>, i: nat, k: Key) returns (target: real)
    requires Run(cfg, ss, es) && i < |es| && Trains(ss[i], es[i]) && k in ss[i + 1].ips.forward
    ensures var txs := Completing(ss[i], es[i].meta);
            Teaches(ss[i].ips, k, |FromAddress(txs, k)|, Sum(IpSamples(txs), k), target, ss[i + 1].ips.forward[k])
  {
    hide Next, Paired, Updated, Teaches, FromAddress, SamplesOf, Completing;
    TrainedStep(cfg, ss, es, i);
    var txs := Completing(ss[i], es[i].meta);
    SamplesAre(txs, k);
    target := UpdateTeaches(cfg.treeCap, cfg.maxIps, ss[i].ips, IpSamples(txs), ss[i + 1].ips, k);
  }

  /** The same of each signer. */
  lemma SignerTraining(cfg: Config, ss: seq<State>, es: seq<Event>, i: nat, k: Key) returns (target: real)
    requires Run(cfg, ss, es) && i < |es| && Trains(ss[i], es[i]) && k in ss[i + 1].signers.forward
    ensures var txs := Completing(ss[i], es[i].meta);
            Teaches(
              ss[i].signers, k, |FromSigner(txs, k)|, Sum(SignerSamples(txs), k), target, ss[i + 1].signers.forward[k])
  {
    hide Next, Paired, Updated, Teaches, FromSigner, SamplesOf, Completing;
    TrainedStep(cfg, ss, es, i);
    var txs := Completing(ss[i], es[i].meta);
    SamplesAre(txs, k);
    target := UpdateTeaches(cfg.treeCap, cfg.maxSigners, ss[i].signers, SignerSamples(txs), ss[i + 1].signers, k);
  }

  /**
   With room for 80 more keys in each tree, training leaves the residents and
   every absent key with five samples, or as many of them as the limits allow.
   */
  lemma TrainingSizes(cfg: Config, ss: seq<State>, es: seq<Event>, i: nat)
    requires Run(cfg, ss, es) && i < |es| && Trains(ss[i], es[i])
    requires cfg.maxIps + 80 <= cfg.treeCap && cfg.maxSigners + 80 <= cfg.treeCap
    ensures var s, txs, s' := ss[i], Completing(ss[i], es[i].meta), ss[i + 1];
            && |s'.ips.forward|
               == Capped(|s.ips.forward| + |FrequentAbsent(s.ips.forward, IpSamples(txs))|, cfg.maxIps)
            && |s'.signers.forward|
               == Capped(|s.signers.forward| + |FrequentAbsent(s.signers.forward, SignerSamples(txs))|, cfg.maxSigners)
  {
    hide Next, Inv, Updated, FrequentAbsent, Completing, Paired, Least, Entrants;
    var s, txs, s' := ss[i], Completing(ss[i], es[i].meta), ss[i + 1];
    TrainedStep(cfg, ss, es, i);
    RunKeeps(cfg, ss, es, i);
    InvPaired(cfg, s);
    NoInsertRefused(cfg, ss, es, i);
    TableSize(cfg.treeCap, cfg.maxIps, s.ips, IpSamples(txs), s'.ips);
    TableSize(cfg.treeCap, cfg.maxSigners, s.signers, SignerSamples(txs), s'.signers);
  }

  lemma TableSize(cap: nat, limit: nat, t: Table, batch: seq<(Key, real)>, t': Table)
    requires |t.forward| <= limit && limit + 80 <= cap && |batch| == 401 && Updated(cap, limit, t, batch, t')
    ensures |t'.forward| == Capped(|t.forward| + |FrequentAbsent(t.forward, batch)|, limit)
  {
    hide Updated, FrequentAbsent, Least, Entrants, Learned;
    NoneRefused(cap - |t.forward|, t.forward, batch, 0.0);
    UpdateLearns(cap, limit, t, batch, t');
  }

  ghost function Capped(n: nat, limit: nat): nat {
    if n <= limit then n else limit
  }
}
