/** The laws of the tile about its queue over whole runs: what is queued, what is sent, and when. */
module TileQueue {
  import opened Wrappers
  import opened Metas
  import opened Packets
  import opened Counters
  import opened Scores
  import opened PriorityQueue
  import opened Banking
  import opened Tile
  import opened TileInvariant
  import opened TileTheorems
  import opened TileLedger
  import Recency

  // --------------------------------------------------------- when it is sent

  /** How many entries of `due` a transmission may carry. */
  ghost function Share(due: Heap, maxSend: nat): nat {
    if |due| < maxSend then |due| else maxSend
  }

  /**
   From a queue `q` at least an interval after the last send: nothing goes out
   when nothing may, and else exactly one batch, started now, of as many entries
   that are not recent as there are or as the limit allows. The others stay,
   and recent ones are dropped on the way, all of them when the limit is not met.
   */
  ghost predicate SendsDue(q: Heap, recent: set<nat>, maxSend: nat, s: State, now: nat, done: nat, s': State) {
    var due := FreshPart(q, recent);
    var n := Share(due, maxSend);
    && (n == 0 ==> s'.wire == s.wire && s'.lastSend == s.lastSend && FreshPart(s'.heap, recent) == due)
    && (maxSend == 0 ==> s'.heap == q)
    && (|due| < maxSend ==> s'.heap == multiset{})
    && s'.heap <= q
    && (n > 0 ==>
          && |s'.wire| == |s.wire| + 1
          && s'.lastSend == done
          && var b := s'.wire[|s.wire|];
          && s'.wire == s.wire + [b]
          && b.start == now && b.finish == done && |b.txs| == n
          && due == multiset(b.txs) + FreshPart(s'.heap, recent))
  }

  /** Before the interval has passed the queue only grows. */
  ghost predicate Waits(q: Heap, s: State, s': State) {
    s'.heap == q && s'.wire == s.wire && s'.lastSend == s.lastSend
  }

  lemma TransmitSends(
      h: Heap, s: State, stats: Stats, s': State, recent: set<nat>, maxSend: nat, ticksPerMs: nat, now: nat, done: nat)
    requires ticksPerMs > 0 && s.lastSend <= now
    requires Transmitted(
               h, s.lastSend, s.wire, stats, s'.heap, s'.lastSend, s'.wire, s'.stats,
               recent, maxSend, ticksPerMs, now, done)
    ensures now - s.lastSend < 100 * ticksPerMs ==> Waits(h, s, s')
    ensures now - s.lastSend >= 100 * ticksPerMs ==> SendsDue(h, recent, maxSend, s, now, done, s')
  {
    hide Drained, FreshPart;
    IntervalTicks(now - s.lastSend, ticksPerMs);
    if now - s.lastSend >= 100 * ticksPerMs {
      var sent, dropped :|
        && Drained(h, recent, maxSend, sent, dropped, s'.heap)
        && s'.lastSend == (if sent == [] then s.lastSend else done)
        && s'.wire == (if sent == [] then s.wire else s.wire + [Batch(now, done, sent)]);
      SendsFresh(h, recent, maxSend, sent, dropped, s'.heap);
      DrainsNothing(h, recent, maxSend, sent, dropped, s'.heap);
    }
  }

  lemma DrainsNothing(h: Heap, recent: set<nat>, maxSend: nat, sent: seq<Scored>, dropped: Heap, rest: Heap)
    requires Drained(h, recent, maxSend, sent, dropped, rest)
    ensures maxSend == 0 ==> rest == h
    ensures |sent| < maxSend ==> rest == multiset{}
    ensures rest <= h
    ensures sent == [] ==> multiset(sent) == multiset{}
  {
  }

  lemma QueuedSends(cfg: Config, s: State, stats: Stats, tx: Scored, now: nat, done: nat, s': State)
    returns (q: Heap, leaked: Option<Scored>)
    requires Proper(cfg) && s.lastSend <= now && QueuedAndSent(cfg, s, stats, tx, now, done, s')
    ensures Pushed(cfg.heapCap, s.heap, tx, q, leaked)
    ensures now - s.lastSend < 100 * cfg.ticksPerMs ==> Waits(q, s, s')
    ensures now - s.lastSend >= 100 * cfg.ticksPerMs ==>
              SendsDue(q, Recency.KeysOf(s.recent), MaxSend(cfg.targetPps), s, now, done, s')
  {
    hide Pushed, Transmitted, Waits, SendsDue, Recency.KeysOf;
    q, leaked :|
      && Pushed(cfg.heapCap, s.heap, tx, q, leaked)
      && Transmitted(
           q, s.lastSend, s.wire,
           if leaked.Some? then stats.(leakedPriority := stats.leakedPriority + 1) else stats,
           s'.heap, s'.lastSend, s'.wire, s'.stats,
           Recency.KeysOf(s.recent), MaxSend(cfg.targetPps), cfg.ticksPerMs, now, done);
    TransmitSends(
      q, s, if leaked.Some? then stats.(leakedPriority := stats.leakedPriority + 1) else stats, s',
      Recency.KeysOf(s.recent), MaxSend(cfg.targetPps), cfg.ticksPerMs, now, done);
  }

  lemma AcceptedStep(cfg: Config, s: State, e: Event, s': State) returns (q: Heap, leaked: Option<Scored>)
    requires Proper(cfg) && Next(cfg, s, e, s') && Accepts(cfg, s, e)
    ensures s.lastSend <= e.now <= e.done
    ensures Pushed(cfg.heapCap, s.heap, Judge(cfg, s, e.packet).tx, q, leaked)
    ensures e.now - s.lastSend < 100 * cfg.ticksPerMs ==> Waits(q, s, s')
    ensures e.now - s.lastSend >= 100 * cfg.ticksPerMs ==>
              SendsDue(q, Recency.KeysOf(s.recent), MaxSend(cfg.targetPps), s, e.now, e.done, s')
  {
    hide Judge, QueuedAndSent, Pushed, Waits, SendsDue, Recency.KeysOf;
    var v, stats := Judge(cfg, s, e.packet), s.stats.(totalPackets := s.stats.totalPackets + 1);
    q, leaked := QueuedSends(
      cfg, s, if v.tx.score == 0.0 then stats.(zeroScore := stats.zeroScore + 1) else stats,
      v.tx, e.now, e.done, s');
  }

  /**
   In every run an accepted packet is pushed into the queue. Before 100
   milliseconds have passed since the last send nothing else happens; after
   that the best entries that are not recent go out, if there are any.
   */
  lemma RunSends(cfg: Config, ss: seq<State>, es: seq<Event>, i: nat) returns (q: Heap, leaked: Option<Scored>)
    requires Run(cfg, ss, es) && i < |es| && Accepts(cfg, ss[i], es[i])
    ensures var s, e, s' := ss[i], es[i], ss[i + 1];
            && s.lastSend <= e.now <= e.done
            && Pushed(cfg.heapCap, s.heap, Judge(cfg, s, e.packet).tx, q, leaked)
            && (e.now - s.lastSend < 100 * cfg.ticksPerMs ==> Waits(q, s, s'))
            && (e.now - s.lastSend >= 100 * cfg.ticksPerMs ==>
                  SendsDue(q, Recency.KeysOf(s.recent), MaxSend(cfg.targetPps), s, e.now, e.done, s'))
  {
    hide Next, Accepts, Judge, Pushed, Waits, SendsDue, Recency.KeysOf;
    RunStep(cfg, ss, es, i);
    q, leaked := AcceptedStep(cfg, ss[i], es[i], ss[i + 1]);
  }

  /** A step that accepts no packet leaves the queue, the wire and the timer alone. */
  lemma OthersSendNothing(cfg: Config, s: State, e: Event, s': State)
    requires Proper(cfg) && Next(cfg, s, e, s') && !Accepts(cfg, s, e)
    ensures s'.heap == s.heap && s'.wire == s.wire && s'.lastSend == s.lastSend
  {
    hide Judge, QueuedAndSent, FedBack, Trained, Recency.Pop;
  }

  /** The wire grows in a step exactly when a packet is accepted, the interval has passed and something may go out. */
  lemma WireGrowsIff(cfg: Config, ss: seq<State>, es: seq<Event>, i: nat) returns (q: Heap, leaked: Option<Scored>)
    requires Run(cfg, ss, es) && i < |es|
    ensures Accepts(cfg, ss[i], es[i]) ==>
              Pushed(cfg.heapCap, ss[i].heap, Judge(cfg, ss[i], es[i].packet).tx, q, leaked)
    ensures ss[i + 1].wire != ss[i].wire
            <==> && Accepts(cfg, ss[i], es[i])
                 && es[i].now - ss[i].lastSend >= 100 * cfg.ticksPerMs
                 && MaxSend(cfg.targetPps) > 0
                 && exists x :: x in q && x.sigKey !in Recency.KeysOf(ss[i].recent)
  {
    hide Next, Accepts, Judge, Pushed, Recency.KeysOf;
    RunStep(cfg, ss, es, i);
    if Accepts(cfg, ss[i], es[i]) {
      q, leaked := RunSends(cfg, ss, es, i);
      FreshIff(q, Recency.KeysOf(ss[i].recent));
    } else {
      q, leaked := multiset{}, None;
      OthersSendNothing(cfg, ss[i], es[i], ss[i + 1]);
    }
  }

  lemma FreshIff(q: Heap, recent: set<nat>)
    ensures |FreshPart(q, recent)| > 0 <==> exists x :: x in q && x.sigKey !in recent
  {
    var f := FreshPart(q, recent);
    if |f| > 0 {
      var x :| x in f;
      assert x in q && x.sigKey !in recent;
    }
    if x :| x in q && x.sigKey !in recent {
      assert x in f;
    }
  }

  // ------------------------------------------------ where it comes from

  /** The transaction is queued or has been sent. */
  ghost predicate InFlight(s: State, x: Scored) {
    x in s.heap || exists b :: b in s.wire && x in b.txs
  }

  lemma QueuedOrigin(cfg: Config, s: State, stats: Stats, tx: Scored, now: nat, done: nat, s': State, x: Scored)
    requires Proper(cfg) && s.lastSend <= now && QueuedAndSent(cfg, s, stats, tx, now, done, s')
    requires InFlight(s', x)
    ensures x == tx || InFlight(s, x)
  {
    hide Transmitted, IsMin, Recency.KeysOf;
    var h: Heap, leaked: Option<Scored>, stats' :|
      && Pushed(cfg.heapCap, s.heap, tx, h, leaked)
      && Transmitted(
           h, s.lastSend, s.wire, stats', s'.heap, s'.lastSend, s'.wire, s'.stats,
           Recency.KeysOf(s.recent), MaxSend(cfg.targetPps), cfg.ticksPerMs, now, done);
    SentOrigin(h, s, stats', s', Recency.KeysOf(s.recent), MaxSend(cfg.targetPps), cfg.ticksPerMs, now, done, x);
  }

  lemma SentOrigin(
      h: Heap, s: State, stats: Stats, s': State, recent: set<nat>, maxSend: nat, ticksPerMs: nat,
      now: nat, done: nat, x: Scored)
    requires ticksPerMs > 0 && s.lastSend <= now
    requires Transmitted(
               h, s.lastSend, s.wire, stats, s'.heap, s'.lastSend, s'.wire, s'.stats,
               recent, maxSend, ticksPerMs, now, done)
    requires InFlight(s', x)
    ensures x in h || exists b :: b in s.wire && x in b.txs
  {
    if (now - s.lastSend) / ticksPerMs >= SEND_INTERVAL_MS {
      hide Drained;
      var sent, dropped :|
        && Drained(h, recent, maxSend, sent, dropped, s'.heap)
        && s'.wire == (if sent == [] then s.wire else s.wire + [Batch(now, done, sent)]);
      DrainParts(h, recent, maxSend, sent, dropped, s'.heap, x);
      if x !in s'.heap {
        var b :| b in s'.wire && x in b.txs;
        assert b in s.wire || b.txs == sent;
      }
    }
  }

  lemma DrainParts(
      h: Heap, recent: set<nat>, maxSend: nat, sent: seq<Scored>, dropped: Heap, rest: Heap, x: Scored)
    requires Drained(h, recent, maxSend, sent, dropped, rest)
    ensures x in sent || x in rest ==> x in h
  {
  }

  lemma StepOrigin(cfg: Config, s: State, e: Event, s': State, x: Scored)
    requires Proper(cfg) && Next(cfg, s, e, s') && InFlight(s', x) && !InFlight(s, x)
    ensures Accepts(cfg, s, e) && Judge(cfg, s, e.packet).tx == x
  {
    hide Judge, QueuedAndSent, FedBack, Trained, Recency.Pop;
    if !Accepts(cfg, s, e) {
      OthersSendNothing(cfg, s, e, s');
    } else {
      var v, stats := Judge(cfg, s, e.packet), s.stats.(totalPackets := s.stats.totalPackets + 1);
      QueuedOrigin(cfg, s, if v.tx.score == 0.0 then stats.(zeroScore := stats.zeroScore + 1) else stats,
                   v.tx, e.now, e.done, s', x);
    }
  }

  /** A valued packet is queued as itself, under the key of its first signature. */
  lemma JudgedAsItself(cfg: Config, s: State, p: Packet)
    requires Judge(cfg, s, p).Valued?
    ensures p.outcome.Sanitized?
    ensures Judge(cfg, s, p).tx.packet == p
    ensures Judge(cfg, s, p).tx.sigKey == cfg.sigKey(p.outcome.tx.signatures[0])
  {
    hide MetaOf, ScoreOf, HashOf;
  }

  /**
   In every state of every run, whatever is queued or has been sent is the packet
   of an earlier accepting step, as judged there, under the key of its own first
   signature.
   */
  lemma {:induction false} InFlightOrigin(cfg: Config, ss: seq<State>, es: seq<Event>, i: nat, x: Scored)
    returns (j: nat)
    requires Run(cfg, ss, es) && i < |ss| && InFlight(ss[i], x)
    ensures j < i && es[j].PacketIn? && Accepts(cfg, ss[j], es[j])
    ensures es[j].packet == x.packet && Judge(cfg, ss[j], x.packet).tx == x
    ensures x.packet.outcome.Sanitized?
    ensures x.sigKey == cfg.sigKey(x.packet.outcome.tx.signatures[0])
  {
    hide Next, Judge;
    if i == 0 {
      assert false;
    } else if InFlight(ss[i - 1], x) {
      j := InFlightOrigin(cfg, ss, es, i - 1, x);
    } else {
      j := i - 1;
      RunStep(cfg, ss, es, j);
      StepOrigin(cfg, ss[j], es[j], ss[i], x);
      JudgedAsItself(cfg, ss[j], es[j].packet);
    }
  }

  /**
   End-to-end suppression: once a signature has arrived on the recent-signature
   channel, and while fewer other keys have arrived since than the cache holds,
   no step transmits a transaction whose first signature it is or shares its
   key, queued before or arriving later.
   */
  lemma Suppression(cfg: Config, ss: seq<State>, es: seq<Event>, i: nat, j: nat)
    requires Run(cfg, ss, es) && i < j < |es| && es[i].RecentSignature?
    requires |ArrivedKeys(cfg, es[i + 1..j]) - {cfg.sigKey(es[i].signature)}| < cfg.recentCap
    ensures ss[j].wire <= ss[j + 1].wire
    ensures var added := ss[j + 1].wire[|ss[j].wire|..];
            forall b, x :: b in added && x in b.txs ==>
                             && x.packet.outcome.Sanitized?
                             && cfg.sigKey(x.packet.outcome.tx.signatures[0]) != cfg.sigKey(es[i].signature)
                             && x.packet.outcome.tx.signatures[0] != es[i].signature
  {
    hide Next, ArrivedKeys;
    KeySuppression(cfg, ss, es, i, j);
    var added := ss[j + 1].wire[|ss[j].wire|..];
    forall b, x | b in added && x in b.txs
      ensures x.packet.outcome.Sanitized?
      ensures cfg.sigKey(x.packet.outcome.tx.signatures[0]) != cfg.sigKey(es[i].signature)
    {
      assert b in ss[j + 1].wire;
      var k := InFlightOrigin(cfg, ss, es, j + 1, x);
    }
  }
}
