/**
 The scoring model of `model/src/models/ip_signer.rs`. Each of its two tables
 is a forward tree and an inverse tree updated in step; the methods below
 perform the program's tree operations one by one and are proved against the
 value-level transitions of module `Scores`.
 */
module Model {
  import opened Wrappers
  import opened Scores
  import opened Metas

  // ------------------------------------------------- bounded trees on values

  /** Insertion into a tree of `cap` nodes: an existing key is overwritten, a new one refused when full. */
  function Inserted(cap: nat, m: map<Key, real>, k: Key, v: real): map<Key, real> {
    if k in m || |m| < cap then m[k := v] else m
  }

  function InsertedEntry(cap: nat, s: set<Entry>, e: Entry): set<Entry> {
    if e in s || |s| < cap then s + {e} else s
  }

  ghost function LoadForward(cap: nat, scores: seq<(Key, real)>): map<Key, real> {
    if scores == [] then map[]
    else
      var last := scores[|scores| - 1];
      Inserted(cap, LoadForward(cap, scores[..|scores| - 1]), last.0, last.1)
  }

  ghost function LoadInverse(cap: nat, scores: seq<(Key, real)>): set<Entry> {
    if scores == [] then {}
    else
      var last := scores[|scores| - 1];
      InsertedEntry(cap, LoadInverse(cap, scores[..|scores| - 1]), (last.1, last.0))
  }

  /** Inserting an absent key into both trees of a pair keeps them paired, refused or not. */
  lemma InsertKeepsInverse(cap: nat, m: map<Key, real>, k: Key, v: real)
    requires k !in m
    ensures InsertedEntry(cap, Inverse(m), (v, k)) == Inverse(Inserted(cap, m, k, v))
  {
    InverseSize(m);
    InverseSet(m, k, v);
  }

  lemma InsertedSize(cap: nat, m: map<Key, real>, k: Key, v: real)
    requires |m| <= cap
    ensures |Inserted(cap, m, k, v)| <= cap
  {
    assert m[k := v].Keys == m.Keys + {k};
  }

  /** Removing a key before inserting it makes room, so an existing key is never refused. */
  lemma AddedIsInserted(cap: nat, m: map<Key, real>, k: Key, v: real)
    requires |m| <= cap
    ensures Inserted(cap, m - {k}, k, v) == Inserted(cap, m, k, v)
    ensures |Inserted(cap, m, k, v)| <= cap
  {
    InsertedSize(cap, m, k, v);
    if k in m {
      assert (m - {k}).Keys == m.Keys - {k};
      assert |(m - {k}).Keys| == |m.Keys| - 1;
      assert (m - {k})[k := v] == m[k := v];
    } else {
      assert m - {k} == m;
    }
  }

  lemma {:induction false} LoadedKeys(cap: nat, scores: seq<(Key, real)>)
    ensures forall k :: k in LoadForward(cap, scores) ==> exists i :: 0 <= i < |scores| && scores[i].0 == k
    ensures |LoadForward(cap, scores)| <= cap
  {
    if scores != [] {
      var n := |scores| - 1;
      LoadedKeys(cap, scores[..n]);
      var m := LoadForward(cap, scores[..n]);
      InsertedSize(cap, m, scores[n].0, scores[n].1);
      forall k | k in LoadForward(cap, scores) ensures exists i :: 0 <= i < |scores| && scores[i].0 == k {
        if k != scores[n].0 {
          var i :| 0 <= i < n && scores[..n][i].0 == k;
          assert scores[i].0 == k;
        }
      }
    }
  }

  ghost predicate DistinctKeys(scores: seq<(Key, real)>) {
    forall i, j :: 0 <= i < j < |scores| ==> scores[i].0 != scores[j].0
  }

  /** Initial scores with distinct keys load into a pair, whatever the capacity. */
  lemma {:induction false} LoadPaired(cap: nat, scores: seq<(Key, real)>)
    requires DistinctKeys(scores)
    ensures LoadInverse(cap, scores) == Inverse(LoadForward(cap, scores))
  {
    if scores == [] {
      assert Inverse(map[]) == {};
    } else {
      var n := |scores| - 1;
      LoadPaired(cap, scores[..n]);
      LoadedKeys(cap, scores[..n]);
      InsertKeepsInverse(cap, LoadForward(cap, scores[..n]), scores[n].0, scores[n].1);
    }
  }

  /** Some key is listed with two different scores. */
  ghost predicate Conflicting(scores: seq<(Key, real)>) {
    exists i, j :: 0 <= i < j < |scores| && scores[i].0 == scores[j].0 && scores[i].1 != scores[j].1
  }

  lemma {:induction false} LoadAll(cap: nat, scores: seq<(Key, real)>)
    requires |scores| <= cap
    ensures |LoadInverse(cap, scores)| <= |scores| && |LoadForward(cap, scores)| <= |scores|
    ensures forall e :: e in LoadInverse(cap, scores) <==> (e.1, e.0) in scores
    ensures forall k :: k in LoadForward(cap, scores) ==> (k, LoadForward(cap, scores)[k]) in scores
    ensures forall i :: 0 <= i < |scores| ==> scores[i].0 in LoadForward(cap, scores)
  {
    if scores != [] {
      var n := |scores| - 1;
      LoadAll(cap, scores[..n]);
      assert scores == scores[..n] + [scores[n]];
      var m := LoadForward(cap, scores[..n]);
      assert m[scores[n].0 := scores[n].1].Keys == m.Keys + {scores[n].0};
      var inv := LoadInverse(cap, scores[..n]);
      assert inv + {(scores[n].1, scores[n].0)} == LoadInverse(cap, scores);
    }
  }

  /** When everything fits, the loaded trees are paired exactly when no key has two different scores. */
  lemma LoadPairedIff(cap: nat, scores: seq<(Key, real)>)
    requires |scores| <= cap
    ensures LoadInverse(cap, scores) == Inverse(LoadForward(cap, scores)) <==> !Conflicting(scores)
  {
    LoadAll(cap, scores);
    var m, inv := LoadForward(cap, scores), LoadInverse(cap, scores);
    if Conflicting(scores) {
      var i, j :| 0 <= i < j < |scores| && scores[i].0 == scores[j].0 && scores[i].1 != scores[j].1;
      assert (scores[i].1, scores[i].0) in inv && (scores[j].1, scores[j].0) in inv;
    } else {
      hide Conflicting;
      forall e | e in inv ensures e in Inverse(m) {
        SameScore(scores, e.1, e.0, m[e.1]);
      }
      assert inv == Inverse(m);
    }
  }

  lemma SameScore(scores: seq<(Key, real)>, k: Key, a: real, b: real)
    requires !Conflicting(scores) && (k, a) in scores && (k, b) in scores
    ensures a == b
  {
    var i :| 0 <= i < |scores| && scores[i] == (k, a);
    var j :| 0 <= j < |scores| && scores[j] == (k, b);
  }

  // --------------------------------------------------------------- one table

  datatype Candidate = Candidate(scoreSum: real, count: nat)

  /** The candidates are the batch grouped by key. */
  ghost predicate Groups(cands: map<Key, Candidate>, batch: seq<(Key, real)>) {
    && cands.Keys == BatchKeys(batch)
    && forall k :: k in cands ==> cands[k] == Candidate(Sum(batch, k), Count(batch, k))
  }

  lemma {:induction false} CountPositive(batch: seq<(Key, real)>, k: Key)
    ensures Count(batch, k) > 0 <==> k in BatchKeys(batch)
  {
    if batch != [] {
      var n := |batch| - 1;
      CountPositive(batch[..n], k);
      assert batch == batch[..n] + [batch[n]];
    }
  }

  /** One more sample in the candidates: a known key is accumulated, a new one starts. */
  function Observe(cands: map<Key, Candidate>, k: Key, v: real): map<Key, Candidate> {
    cands[k := if k in cands then Candidate(cands[k].scoreSum + v, cands[k].count + 1) else Candidate(v, 1)]
  }

  lemma ObserveGroups(cands: map<Key, Candidate>, batch: seq<(Key, real)>, k: Key, v: real)
    requires Groups(cands, batch)
    ensures Groups(Observe(cands, k, v), batch + [(k, v)])
  {
    var more := batch + [(k, v)];
    assert more[..|more| - 1] == batch;
    CountPositive(batch, k);
    AbsentSum(batch, k);
    assert BatchKeys(more) == BatchKeys(batch) + {k};
  }

  /** The samples of a batch of transactions, by source address and by signer. */
  function IpSamples(txs: seq<TxMeta>): seq<(Key, real)> {
    seq(|txs|, i requires 0 <= i < |txs| => (txs[i].ip, txs[i].value))
  }

  function SignerSamples(txs: seq<TxMeta>): seq<(Key, real)> {
    seq(|txs|, i requires 0 <= i < |txs| => (txs[i].signer, txs[i].value))
  }

  lemma SamplesSnoc(txs: seq<TxMeta>, i: nat)
    requires i < |txs|
    ensures SignerSamples(txs[..i + 1]) == SignerSamples(txs[..i]) + [(txs[i].signer, txs[i].value)]
    ensures IpSamples(txs[..i + 1]) == IpSamples(txs[..i]) + [(txs[i].ip, txs[i].value)]
  {
  }

  method GroupTransactions(txs: seq<TxMeta>)
    returns (signers: map<Key, Candidate>, ips: map<Key, Candidate>)
    ensures Groups(signers, SignerSamples(txs)) && Groups(ips, IpSamples(txs))
  {
    signers, ips := map[], map[];
    assert Groups(signers, []) && Groups(ips, []);
    hide Groups, Observe;
    for i := 0 to |txs|
      invariant Groups(signers, SignerSamples(txs[..i])) && Groups(ips, IpSamples(txs[..i]))
    {
      var tx := txs[i];
      SamplesSnoc(txs, i);
      ObserveGroups(signers, SignerSamples(txs[..i]), tx.signer, tx.value);
      ObserveGroups(ips, IpSamples(txs[..i]), tx.ip, tx.value);
      signers := Observe(signers, tx.signer, tx.value);
      ips := Observe(ips, tx.ip, tx.value);
    }
    assert txs[..|txs|] == txs;
  }

  lemma {:induction false} AbsentSum(batch: seq<(Key, real)>, k: Key)
    ensures Count(batch, k) == 0 ==> Sum(batch, k) == 0.0
  {
    if batch != [] {
      AbsentSum(batch[..|batch| - 1], k);
    }
  }

  method Smallest(s: set<Key>) returns (k: Key)
    requires s != {}
    ensures k in s && forall x :: x in s ==> k <= x
  {
    ghost var least := Min(s);
    k :| k in s && forall x :: x in s ==> k <= x;
  }

  /** The forward map while residents outside `todo` have already moved. */
  ghost function Moving(m: map<Key, real>, batch: seq<(Key, real)>, median: real, todo: set<Key>): map<Key, real> {
    map k | k in m :: if k in todo then m[k] else Ema(m[k], Target(batch, k, median))
  }

  lemma MovingStep(m: map<Key, real>, batch: seq<(Key, real)>, median: real, todo: set<Key>, k: Key)
    requires k in todo && todo <= m.Keys
    ensures Moving(m, batch, median, todo)[k := Ema(m[k], Target(batch, k, median))]
            == Moving(m, batch, median, todo - {k})
  {
  }

  /** The candidates left after the residents have taken theirs. */
  lemma RestGroups(cands: map<Key, Candidate>, batch: seq<(Key, real)>, m: map<Key, real>)
    requires Groups(cands, batch)
    ensures var rest := cands - m.Keys;
            && rest.Keys == BatchKeys(batch) - m.Keys
            && forall k :: k in rest ==> rest[k] == Candidate(Sum(batch, k), Count(batch, k))
  {
  }

  lemma RestStep(cands: map<Key, Candidate>, m: map<Key, real>, todo: set<Key>, k: Key)
    requires k in todo && todo <= m.Keys
    ensures cands - (m.Keys - todo) - {k} == cands - (m.Keys - (todo - {k}))
  {
    assert m.Keys - todo + {k} == m.Keys - (todo - {k});
  }

  class ScoreTable {
    const capacity: nat
    var forward: map<Key, real>
    var inverse: set<Entry>
    var root: Option<Entry>

    ghost function State(): Table
      reads this
    {
      Table(forward, inverse, root)
    }

    ghost predicate Valid()
      reads this
    {
      Paired(State()) && |forward| <= capacity
    }

    constructor (capacity: nat, scores: seq<(Key, real)>)
      ensures this.capacity == capacity
      ensures forward == LoadForward(capacity, scores) && inverse == LoadInverse(capacity, scores)
      ensures Rooted(inverse, root)
      ensures DistinctKeys(scores) ==> Valid()
    {
      this.capacity := capacity;
      forward, inverse, root := map[], {}, None;
      new;
      for i := 0 to |scores|
        invariant forward == LoadForward(capacity, scores[..i]) && inverse == LoadInverse(capacity, scores[..i])
        invariant Rooted(inverse, root)
      {
        assert scores[..i + 1][..i] == scores[..i];
        InsertForward(scores[i].0, scores[i].1);
        InsertInverse((scores[i].1, scores[i].0));
      }
      assert scores[..|scores|] == scores;
      LoadedKeys(capacity, scores);
      if DistinctKeys(scores) {
        LoadPaired(capacity, scores);
      }
    }

    // -------------------------------------------------- tree operations

    method Reroot()
      modifies `root
      ensures Rooted(inverse, root)
    {
      if inverse == {} {
        root := None;
      } else {
        var e :| e in inverse;
        root := Some(e);
      }
    }

    method InsertForward(k: Key, v: real)
      modifies `forward
      ensures forward == Inserted(capacity, old(forward), k, v)
    {
      if k in forward || |forward| < capacity {
        forward := forward[k := v];
      }
    }

    method InsertInverse(e: Entry)
      modifies `inverse, `root
      ensures inverse == InsertedEntry(capacity, old(inverse), e) && Rooted(inverse, root)
    {
      if e in inverse || |inverse| < capacity {
        inverse := inverse + {e};
      }
      Reroot();
    }

    method RemoveInverse(e: Entry)
      modifies `inverse, `root
      ensures inverse == old(inverse) - {e} && Rooted(inverse, root)
    {
      inverse := inverse - {e};
      Reroot();
    }

    // -------------------------------------------------- model operations

    /** The score of a key, or the root's score for an unknown one. */
    function Lookup(k: Key): real
      reads this
    {
      if k in forward then forward[k] else Median(root)
    }

    /** Replace the score of a resident key: first in the inverse tree, then in the forward one. */
    method Replace(k: Key, v: real)
      requires Valid() && k in forward
      modifies this
      ensures Valid() && forward == old(forward)[k := v]
    {
      InverseSize(forward);
      InverseSet(forward, k, v);
      RemoveInverse((forward[k], k));
      InsertInverse((v, k));
      forward := forward[k := v];
    }

    method Feedback(k: Key)
      requires Valid()
      modifies this
      ensures Valid() && FedBack(old(State()), k, State())
    {
      if k in forward {
        Replace(k, forward[k] * 0.01);
      }
    }

    method Add(k: Key, score: real)
      requires Valid()
      modifies this
      ensures Valid() && forward == Inserted(capacity, old(forward), k, score)
    {
      if k in forward {
        InverseRemove(forward, k);
        RemoveInverse((forward[k], k));
        forward := forward - {k};
      }
      InsertKeepsInverse(capacity, forward, k, score);
      AddedIsInserted(capacity, old(forward), k, score);
      InsertForward(k, score);
      InsertInverse((score, k));
    }

    /** Remove roots until at most `limit` entries remain. */
    method Prune(limit: nat)
      requires Valid()
      modifies this
      ensures Valid() && Pruned(old(forward), limit, forward)
    {
      InverseSize(forward);
      var excess := if |inverse| <= limit then 0 else |inverse| - limit;
      for i := 0 to excess
        invariant Valid()
        invariant forward.Keys <= old(forward).Keys && |forward| == |old(forward)| - i
        invariant forall k :: k in forward ==> forward[k] == old(forward)[k]
      {
        InverseSize(forward);
        var e := root.value;
        InverseRemove(forward, e.1);
        RemoveInverse(e);
        ghost var before := forward;
        forward := forward - {e.1};
        assert forward.Keys == before.Keys - {e.1};
      }
    }

    /** The first loop of `update_model`: every resident key moves, using up its candidate. */
    method MoveResidents(cands: map<Key, Candidate>, ghost batch: seq<(Key, real)>) returns (rest: map<Key, Candidate>)
      requires Valid() && Groups(cands, batch)
      modifies this
      ensures Valid() && forward == Moving(old(forward), batch, Median(old(root)), {})
      ensures rest == cands - old(forward).Keys
    {
      var median := Median(root);
      var todo := forward.Keys;
      rest := cands;
      while todo != {}
        invariant Valid() && todo <= old(forward).Keys
        invariant forward == Moving(old(forward), batch, median, todo)
        invariant rest == cands - (old(forward).Keys - todo)
        decreases todo
      {
        var k := Smallest(todo);
        CountPositive(batch, k);
        MovingStep(old(forward), batch, median, todo, k);
        RestStep(cands, old(forward), todo, k);
        var target := median;
        if k in rest && rest[k].count >= MIN_SAMPLES {
          target := rest[k].scoreSum / rest[k].count as real;
        }
        assert k in rest <==> k in cands;
        assert target == Target(batch, k, median);
        rest := rest - {k};
        Replace(k, Ema(forward[k], target));
        todo := todo - {k};
      }
    }

    /** The second loop of `update_model`: frequent absent keys enter in key order while room remains. */
    method AdmitEntrants(
        rest: map<Key, Candidate>, ghost m: map<Key, real>, ghost batch: seq<(Key, real)>, ghost median: real)
      requires Valid() && |m| <= capacity
      requires forward == Moving(m, batch, median, {})
      requires rest.Keys == BatchKeys(batch) - m.Keys
      requires forall k :: k in rest ==> rest[k] == Candidate(Sum(batch, k), Count(batch, k))
      modifies this
      ensures Valid() && forward == Learned(capacity - |m|, m, batch, median)
    {
      hide Joined, Moving, Learned, Paired, BatchKeys, Count, Sum, Sweep;
      ghost var room, seen: set<Key> := capacity - |m|, {};
      var todo := rest.Keys;
      JoinedEnds(m, batch, median, room);
      SweepStart(todo);
      while todo != {}
        invariant Valid() && Sweep(rest.Keys, seen, todo)
        invariant forward == Joined(m, batch, median, seen, room)
        decreases todo
      {
        var k := Smallest(todo);
        SweepStep(rest.Keys, seen, todo, k);
        Offer(k, rest[k], m, batch, median, seen);
        todo, seen := todo - {k}, seen + {k};
      }
      SweepEnd(rest.Keys, seen);
    }

    /** Both loops of `update_model` for this table. */
    method Learn(cands: map<Key, Candidate>, ghost batch: seq<(Key, real)>)
      requires Valid() && Groups(cands, batch)
      modifies this
      ensures Valid()
      ensures forward == Learned(capacity - |old(forward)|, old(forward), batch, Median(old(root)))
    {
      hide Learned, Moving, Paired, Count, Sum, Groups, BatchKeys;
      var rest := MoveResidents(cands, batch);
      RestGroups(cands, batch, old(forward));
      AdmitEntrants(rest, old(forward), batch, Median(old(root)));
    }

    /** One candidate of the second loop. */
    method Offer(
        k: Key, c: Candidate,
        ghost m: map<Key, real>, ghost batch: seq<(Key, real)>, ghost median: real, ghost seen: set<Key>)
      requires Valid() && |m| <= capacity && forward == Joined(m, batch, median, seen, capacity - |m|)
      requires c == Candidate(Sum(batch, k), Count(batch, k))
      requires k !in m && k in BatchKeys(batch) && forall x :: x in seen ==> x < k
      modifies this
      ensures Valid() && forward == Joined(m, batch, median, seen + {k}, capacity - |m|)
    {
      hide Joined, Inserted;
      JoinedStep(m, batch, median, seen, k, capacity - |m|);
      if c.count >= MIN_SAMPLES {
        Admit(k, c.scoreSum / c.count as real);
      }
    }

    /** Insert an absent key into both trees. */
    method Admit(k: Key, score: real)
      requires Valid() && k !in forward
      modifies this
      ensures Valid() && forward == Inserted(capacity, old(forward), k, score)
    {
      InsertKeepsInverse(capacity, forward, k, score);
      InsertedSize(capacity, forward, k, score);
      InsertForward(k, score);
      InsertInverse((score, k));
    }
  }

  lemma EnteringSize(m: map<Key, real>, batch: seq<(Key, real)>, median: real, e: set<Key>, room: nat)
    requires m.Keys !! e
    ensures |Entering(m, batch, median, Least(e, room))| == |m| + if |e| < room then |e| else room
  {
    var entered := Least(e, room);
    LeastSize(e, room);
    assert Entering(m, batch, median, entered).Keys == m.Keys + entered;
    assert m.Keys !! entered;
    assert |m.Keys + entered| == |m.Keys| + |entered|;
  }

  /** The forward map when the candidates of `seen` have been offered to a table with `room` places. */
  ghost function Joined(
      m: map<Key, real>, batch: seq<(Key, real)>, median: real, seen: set<Key>, room: nat): map<Key, real> {
    Entering(m, batch, median, Least(Entrants(m, batch) * seen, room))
  }

  lemma JoinedSize(m: map<Key, real>, batch: seq<(Key, real)>, median: real, seen: set<Key>, k: Key, room: nat)
    requires k !in m && k !in seen
    ensures k !in Joined(m, batch, median, seen, room)
    ensures var e := |Entrants(m, batch) * seen|;
            |Joined(m, batch, median, seen, room)| == |m| + if e < room then e else room
  {
    var e := Entrants(m, batch) * seen;
    EnteringSize(m, batch, median, e, room);
  }

  lemma EntrantsSeen(m: map<Key, real>, batch: seq<(Key, real)>, seen: set<Key>, k: Key)
    requires k !in m && k in BatchKeys(batch)
    ensures Entrants(m, batch) * (seen + {k})
            == if Count(batch, k) >= MIN_SAMPLES then Entrants(m, batch) * seen + {k} else Entrants(m, batch) * seen
  {
  }

  lemma SeenBelow(m: map<Key, real>, batch: seq<(Key, real)>, seen: set<Key>, k: Key)
    requires forall x :: x in seen ==> x < k
    ensures forall x :: x in Entrants(m, batch) * seen ==> x < k
  {
  }

  lemma LeastOneMore(
      m: map<Key, real>, batch: seq<(Key, real)>, median: real, e: set<Key>, k: Key, room: nat)
    requires k !in m && forall x :: x in e ==> x < k
    ensures Entering(m, batch, median, Least(e + {k}, room))
            == if |e| < room then Entering(m, batch, median, Least(e, room))[k := Mean(batch, k)]
               else Entering(m, batch, median, Least(e, room))
  {
    LeastExtend(e, k, room);
    EnteringMore(m, batch, median, Least(e, room), k);
  }

  /** One candidate of the second loop, on values. */
  lemma JoinedStep(m: map<Key, real>, batch: seq<(Key, real)>, median: real, seen: set<Key>, k: Key, room: nat)
    requires forall x :: x in seen ==> x < k
    requires k !in m && k in BatchKeys(batch)
    ensures k !in Joined(m, batch, median, seen, room)
    ensures Joined(m, batch, median, seen + {k}, room)
            == if Count(batch, k) >= MIN_SAMPLES
               then Inserted(|m| + room, Joined(m, batch, median, seen, room), k, Mean(batch, k))
               else Joined(m, batch, median, seen, room)
  {
    hide Entering, Least, Entrants, BatchKeys;
    JoinedSize(m, batch, median, seen, k, room);
    SeenBelow(m, batch, seen, k);
    EntrantsSeen(m, batch, seen, k);
    LeastOneMore(m, batch, median, Entrants(m, batch) * seen, k, room);
  }

  /** Before any candidate was offered the residents have moved; after all of them the batch is learned. */
  lemma JoinedEnds(m: map<Key, real>, batch: seq<(Key, real)>, median: real, room: nat)
    ensures Joined(m, batch, median, {}, room) == Moving(m, batch, median, {})
    ensures Joined(m, batch, median, BatchKeys(batch) - m.Keys, room) == Learned(room, m, batch, median)
  {
    assert Least({}, room) == {};
    assert Entrants(m, batch) * {} == {};
    assert Entrants(m, batch) * (BatchKeys(batch) - m.Keys) == Entrants(m, batch);
  }

  /** `seen` and `todo` split `all` into smaller and larger keys. */
  ghost predicate Sweep(all: set<Key>, seen: set<Key>, todo: set<Key>) {
    seen + todo == all && forall x, y :: x in seen && y in todo ==> x < y
  }

  lemma SweepStart(all: set<Key>)
    ensures Sweep(all, {}, all)
  {
  }

  lemma SweepEnd(all: set<Key>, seen: set<Key>)
    requires Sweep(all, seen, {})
    ensures seen == all
  {
  }

  lemma SweepStep(all: set<Key>, seen: set<Key>, todo: set<Key>, k: Key)
    requires Sweep(all, seen, todo) && k in todo && forall x :: x in todo ==> k <= x
    ensures Sweep(all, seen + {k}, todo - {k})
    ensures k !in seen && (forall x :: x in seen ==> x < k)
  {
    forall x, y | x in seen + {k} && y in todo - {k} ensures x < y {
      assert y in todo && (x == k || x in seen);
    }
    assert seen + {k} + (todo - {k}) == all;
  }

  lemma EnteringMore(m: map<Key, real>, batch: seq<(Key, real)>, median: real, entered: set<Key>, k: Key)
    requires k !in m
    ensures Entering(m, batch, median, entered + {k}) == Entering(m, batch, median, entered)[k := Mean(batch, k)]
  {
  }

  // --------------------------------------------------------------- the model

  class IpSignerModel {
    const ips: ScoreTable
    const signers: ScoreTable

    ghost predicate Valid()
      reads this, ips, signers
    {
      ips != signers && ips.Valid() && signers.Valid()
    }

    constructor (maxIps: nat, maxSigners: nat)
      ensures Valid() && fresh(ips) && fresh(signers)
      ensures ips.capacity == maxIps && signers.capacity == maxSigners
      ensures ips.State() == signers.State() == Table(map[], {}, None)
    {
      ips := new ScoreTable(maxIps, []);
      signers := new ScoreTable(maxSigners, []);
    }

    /** The combined score of a source address and a signer. */
    function Forward(ip: Key, signer: Key): real
      reads ips, signers
    {
      ips.Lookup(ip) * signers.Lookup(signer)
    }

    method IpFeedback(ip: Key)
      requires Valid()
      modifies ips
      ensures Valid() && FedBack(old(ips.State()), ip, ips.State())
    {
      ips.Feedback(ip);
    }

    method UpdateModel(txs: seq<TxMeta>, pruneSigners: nat, pruneIps: nat)
      requires Valid()
      modifies ips, signers
      ensures Valid()
      ensures Updated(ips.capacity, pruneIps, old(ips.State()), IpSamples(txs), ips.State())
      ensures Updated(signers.capacity, pruneSigners, old(signers.State()), SignerSamples(txs), signers.State())
    {
      hide Learned, Pruned, Groups, IpSamples, SignerSamples, Paired, Median;
      var signerCands, ipCands := GroupTransactions(txs);
      ips.Learn(ipCands, IpSamples(txs));
      signers.Learn(signerCands, SignerSamples(txs));
      ips.Prune(pruneIps);
      signers.Prune(pruneSigners);
    }
  }
}
