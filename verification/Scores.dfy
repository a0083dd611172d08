/**
 What the score tables of `model/src/models/ip_signer.rs` hold and learn, on
 values. A table pairs a forward map (key to score) with an inverse set of
 (score, key) entries; keys are numbers, ordered as the program orders them.
 Scores are reals.
 */
module Scores {
  import opened Wrappers
  import opened Basics

  type Key = nat
  type Entry = (real, Key)

  /** `root` is the entry at the root of the inverse tree: some member of it. */
  datatype Table = Table(forward: map<Key, real>, inverse: set<Entry>, root: Option<Entry>)

  ghost function Inverse(m: map<Key, real>): (s: set<Entry>)
    ensures forall e :: e in s <==> e.1 in m && m[e.1] == e.0
  {
    set k | k in m :: (m[k], k)
  }

  ghost predicate Rooted(s: set<Entry>, root: Option<Entry>) {
    if root.None? then s == {} else root.value in s
  }

  ghost predicate Paired(t: Table) {
    t.inverse == Inverse(t.forward) && Rooted(t.inverse, t.root)
  }

  /** The score used for unknown keys: that of the root, or one when there is none. */
  function Median(root: Option<Entry>): real {
    if root.None? then 1.0 else root.value.0
  }

  // ------------------------------------------------------ the paired inverse

  lemma {:induction false} InverseSize(m: map<Key, real>)
    ensures |Inverse(m)| == |m|
    decreases |m|
  {
    if m != map[] {
      var k :| k in m;
      var rest := m - {k};
      assert rest.Keys == m.Keys - {k};
      assert |rest| == |m| - 1;
      InverseSize(rest);
      InverseRemove(m, k);
    } else {
      assert Inverse(m) == {};
    }
  }

  lemma InverseSet(m: map<Key, real>, k: Key, v: real)
    ensures k in m ==> Inverse(m[k := v]) == Inverse(m) - {(m[k], k)} + {(v, k)}
    ensures k !in m ==> Inverse(m[k := v]) == Inverse(m) + {(v, k)} && (v, k) !in Inverse(m)
  {
    var m' := m[k := v];
    assert forall x :: x in m' <==> x in m || x == k;
    assert forall x :: x in m && x != k ==> m'[x] == m[x];
  }

  lemma InverseRemove(m: map<Key, real>, k: Key)
    requires k in m
    ensures Inverse(m - {k}) == Inverse(m) - {(m[k], k)}
  {
  }

  // ---------------------------------------------------------------- group-by

  const MIN_SAMPLES: nat := 5

  function Count(batch: seq<(Key, real)>, k: Key): nat {
    if batch == [] then 0
    else Count(batch[..|batch| - 1], k) + if batch[|batch| - 1].0 == k then 1 else 0
  }

  function Sum(batch: seq<(Key, real)>, k: Key): real {
    if batch == [] then 0.0
    else Sum(batch[..|batch| - 1], k) + if batch[|batch| - 1].0 == k then batch[|batch| - 1].1 else 0.0
  }

  /** The mean of the samples of `k`, zero when there are none. */
  function Mean(batch: seq<(Key, real)>, k: Key): real {
    if Count(batch, k) == 0 then 0.0 else Sum(batch, k) / Count(batch, k) as real
  }

  /** The moving average: a score moves a twentieth of the way to its target. */
  function Ema(score: real, target: real): real {
    score * (1.0 - 0.05) + target * 0.05
  }

  /** What a resident key moves towards. */
  function Target(batch: seq<(Key, real)>, k: Key, median: real): real {
    if Count(batch, k) >= MIN_SAMPLES then Mean(batch, k) else median
  }

  ghost function BatchKeys(batch: seq<(Key, real)>): set<Key> {
    set s | s in batch :: s.0
  }

  /** The absent keys with enough samples to enter. */
  ghost function Entrants(m: map<Key, real>, batch: seq<(Key, real)>): set<Key> {
    set k | k in BatchKeys(batch) && k !in m && Count(batch, k) >= MIN_SAMPLES
  }

  ghost function Below(s: set<Key>, k: Key): set<Key> {
    set x | x in s && x < k
  }

  /** How many members of `s` are smaller than `k`. */
  ghost function Rank(s: set<Key>, k: Key): nat {
    |Below(s, k)|
  }

  /** The `n` smallest members of `s`. */
  ghost function Least(s: set<Key>, n: nat): set<Key> {
    set k | k in s && Rank(s, k) < n
  }

  /** The residents moved by the moving average, joined by `entered` at their means. */
  ghost function Entering(
      m: map<Key, real>, batch: seq<(Key, real)>, median: real, entered: set<Key>): map<Key, real> {
    map k | k in m.Keys + entered :: if k in m then Ema(m[k], Target(batch, k, median)) else Mean(batch, k)
  }

  /**
   The scores after a batch and before pruning, as a declarative group-by: the
   entrants join in key order while room remains.
   */
  ghost function Learned(room: nat, m: map<Key, real>, batch: seq<(Key, real)>, median: real): map<Key, real> {
    Entering(m, batch, median, Least(Entrants(m, batch), room))
  }

  ghost function Scaled(m: map<Key, real>, k: Key): map<Key, real> {
    if k in m then m[k := m[k] * 0.01] else m
  }

  // ---------------------------------------- one table's transitions on values

  ghost predicate FedBack(t: Table, k: Key, t': Table) {
    && t'.forward == Scaled(t.forward, k)
    && Paired(t')
    && (k !in t.forward ==> t' == t)
  }

  ghost predicate Pruned(m: map<Key, real>, limit: nat, m': map<Key, real>) {
    && m'.Keys <= m.Keys
    && (forall k :: k in m' ==> m'[k] == m[k])
    && |m'| == if |m| <= limit then |m| else limit
  }

  /** A whole model update of one table: learn the batch, then prune to `limit`. */
  ghost predicate Updated(cap: nat, limit: nat, t: Table, batch: seq<(Key, real)>, t': Table)
    requires |t.forward| <= cap
  {
    && Pruned(Learned(cap - |t.forward|, t.forward, batch, Median(t.root)), limit, t'.forward)
    && Paired(t')
  }

  // ------------------------------------------------------- smallest members

  lemma LeastExtend(s: set<Key>, k: Key, n: nat)
    requires forall x :: x in s ==> x < k
    ensures Least(s + {k}, n) == if |s| < n then Least(s, n) + {k} else Least(s, n)
  {
    forall x | x in s ensures Rank(s + {k}, x) == Rank(s, x) {
      assert Below(s + {k}, x) == Below(s, x);
    }
    assert Below(s + {k}, k) == s;
  }

  ghost function Max(s: set<Key>): (k: Key)
    requires s != {}
    ensures k in s && forall x :: x in s ==> x <= k
  {
    var x :| x in s;
    if s == {x} then x
    else
      var m := Max(s - {x});
      assert forall y :: y in s ==> y == x || y in s - {x};
      if m < x then x else m
  }

  ghost function Min(s: set<Key>): (k: Key)
    requires s != {}
    ensures k in s && forall x :: x in s ==> k <= x
  {
    var x :| x in s;
    if s == {x} then x
    else
      var m := Min(s - {x});
      assert forall y :: y in s ==> y == x || y in s - {x};
      if x < m then x else m
  }

  /** `Least` takes as many as there are, up to `n`. */
  lemma {:induction false} LeastSize(s: set<Key>, n: nat)
    ensures |Least(s, n)| == if |s| < n then |s| else n
  {
    if s == {} {
      assert Least(s, n) == {};
    } else {
      var k := Max(s);
      var rest := s - {k};
      LeastSize(rest, n);
      LeastExtend(rest, k, n);
      assert rest + {k} == s;
      assert |Least(rest, n) + {k}| == |Least(rest, n)| + 1;
    }
  }

  /** Nothing `Least` leaves is smaller than anything it takes. */
  lemma LeastIsSmallest(s: set<Key>, n: nat, a: Key, b: Key)
    requires a in Least(s, n) && b in s - Least(s, n)
    ensures a < b
  {
    if b <= a {
      assert Below(s, b) <= Below(s, a);
      SubsetSize(Below(s, b), Below(s, a));
    }
  }

  /** With enough room every entrant enters. */
  lemma LeastAll(s: set<Key>, n: nat)
    requires |s| <= n
    ensures Least(s, n) == s
  {
    forall k | k in s ensures Rank(s, k) < n {
      assert k !in Below(s, k) && Below(s, k) + {k} <= s;
      SubsetSize(Below(s, k) + {k}, s);
    }
  }

  // ---------------------------------------------- learning, sample by sample

  /** The positions of the samples of `k`. */
  ghost function SamplesOf(batch: seq<(Key, real)>, k: Key): set<nat> {
    set i | 0 <= i < |batch| && batch[i].0 == k
  }

  lemma SamplesSnoc(batch: seq<(Key, real)>, k: Key)
    requires batch != []
    ensures var n := |batch| - 1;
            && n !in SamplesOf(batch[..n], k)
            && SamplesOf(batch, k)
               == if batch[n].0 == k then SamplesOf(batch[..n], k) + {n} else SamplesOf(batch[..n], k)
  {
    assert forall i :: 0 <= i < |batch| - 1 ==> batch[..|batch| - 1][i] == batch[i];
  }

  lemma {:induction false} CountIsSamples(batch: seq<(Key, real)>, k: Key)
    ensures Count(batch, k) == |SamplesOf(batch, k)|
  {
    if batch == [] {
      assert SamplesOf(batch, k) == {};
    } else {
      hide SamplesOf;
      CountIsSamples(batch[..|batch| - 1], k);
      SamplesSnoc(batch, k);
    }
  }

  lemma {:induction false} SampledInBatch(batch: seq<(Key, real)>, k: Key)
    requires Count(batch, k) > 0
    ensures k in BatchKeys(batch)
  {
    var n := |batch| - 1;
    if batch[n].0 == k {
      assert batch[n] in batch;
    } else {
      SampledInBatch(batch[..n], k);
      assert forall x :: x in batch[..n] ==> x in batch;
    }
  }

  /** The absent keys with at least five samples. */
  ghost function FrequentAbsent(m: map<Key, real>, batch: seq<(Key, real)>): set<Key> {
    set k | k in BatchKeys(batch) && k !in m && |SamplesOf(batch, k)| >= 5
  }

  lemma EntrantsAreFrequent(m: map<Key, real>, batch: seq<(Key, real)>)
    ensures Entrants(m, batch) == FrequentAbsent(m, batch)
  {
    forall k ensures Count(batch, k) == |SamplesOf(batch, k)| {
      CountIsSamples(batch, k);
    }
  }

  lemma MeanTimesCount(batch: seq<(Key, real)>, k: Key)
    requires |SamplesOf(batch, k)| > 0
    ensures Mean(batch, k) * |SamplesOf(batch, k)| as real == Sum(batch, k)
  {
    CountIsSamples(batch, k);
    var n := Count(batch, k) as real;
    assert Sum(batch, k) / n * n == Sum(batch, k);
  }

  /**
   An absent key is resident after learning exactly when it has at least five
   samples and fewer absent keys with five samples lie below it than there is
   room for; its score is then the mean of its values.
   */
  lemma AbsentLearns(room: nat, m: map<Key, real>, batch: seq<(Key, real)>, median: real, k: Key)
    requires k !in m
    ensures var n := |SamplesOf(batch, k)|;
            && (k in Learned(room, m, batch, median)
                <==> n >= 5 && Rank(FrequentAbsent(m, batch), k) < room)
            && (k in Learned(room, m, batch, median) ==>
                  Learned(room, m, batch, median)[k] * n as real == Sum(batch, k))
  {
    hide Learned, Entrants, Mean, FrequentAbsent, SamplesOf, Rank;
    EntrantsAreFrequent(m, batch);
    LearnedAbsent(room, m, batch, median, k);
    FrequentIff(m, batch, k);
    if |SamplesOf(batch, k)| >= 5 {
      MeanTimesCount(batch, k);
    }
  }

  lemma FrequentIff(m: map<Key, real>, batch: seq<(Key, real)>, k: Key)
    ensures k in FrequentAbsent(m, batch) <==> k !in m && |SamplesOf(batch, k)| >= 5
  {
    CountIsSamples(batch, k);
    if |SamplesOf(batch, k)| >= 5 {
      SampledInBatch(batch, k);
    }
  }

  lemma LearnedAbsent(room: nat, m: map<Key, real>, batch: seq<(Key, real)>, median: real, k: Key)
    requires k !in m
    ensures k in Learned(room, m, batch, median) <==> k in Entrants(m, batch) && Rank(Entrants(m, batch), k) < room
    ensures k in Learned(room, m, batch, median) ==> Learned(room, m, batch, median)[k] == Mean(batch, k)
  {
    hide Entrants, Mean, Rank;
  }

  /** The target of a resident key: the mean of at least five samples, or else the root's score. */
  ghost predicate IsTarget(batch: seq<(Key, real)>, k: Key, median: real, t: real) {
    var n := |SamplesOf(batch, k)|;
    && (n >= 5 ==> t * n as real == Sum(batch, k))
    && (n <= 4 ==> t == median)
  }

  /** A resident key stays and moves a twentieth of the way to its target. */
  lemma ResidentLearns(room: nat, m: map<Key, real>, batch: seq<(Key, real)>, median: real, k: Key)
    returns (t: real)
    requires k in m
    ensures IsTarget(batch, k, median, t)
    ensures k in Learned(room, m, batch, median)
    ensures Learned(room, m, batch, median)[k] == 0.95 * m[k] + 0.05 * t
  {
    t := Target(batch, k, median);
    CountIsSamples(batch, k);
    if |SamplesOf(batch, k)| >= 5 {
      MeanTimesCount(batch, k);
    }
  }

  lemma LearnedKeys(room: nat, m: map<Key, real>, batch: seq<(Key, real)>, median: real)
    ensures Learned(room, m, batch, median).Keys == m.Keys + Least(Entrants(m, batch), room)
  {
    hide Entrants, Least;
  }

  lemma UnionSize(a: set<Key>, b: set<Key>)
    requires a !! b
    ensures |a + b| == |a| + |b|
  {
  }

  /** With room for them all, the residents are joined by every absent key with five samples. */
  lemma LearnedSizeWithRoom(room: nat, m: map<Key, real>, batch: seq<(Key, real)>, median: real)
    requires |FrequentAbsent(m, batch)| <= room
    ensures |Learned(room, m, batch, median)| == |m| + |FrequentAbsent(m, batch)|
  {
    hide Learned, Entrants, FrequentAbsent, Least;
    var frequent := FrequentAbsent(m, batch);
    EntrantsAreFrequent(m, batch);
    LeastAll(frequent, room);
    LearnedKeys(room, m, batch, median);
    forall k | k in frequent ensures k !in m.Keys {
      FrequentIff(m, batch, k);
    }
    UnionSize(m.Keys, frequent);
  }

  /**
   A whole update of one table with room to spare leaves the residents and the
   absent keys with five samples, or as many of them as the limit allows.
   */
  lemma UpdateLearns(cap: nat, limit: nat, t: Table, batch: seq<(Key, real)>, t': Table)
    requires |t.forward| <= cap && Updated(cap, limit, t, batch, t')
    requires |t.forward| + |FrequentAbsent(t.forward, batch)| <= cap
    ensures var all := |t.forward| + |FrequentAbsent(t.forward, batch)|;
            |t'.forward| == if all <= limit then all else limit
  {
    hide *;
    UpdatedPrunes(cap, limit, t, batch, t');
    LearnedSizeWithRoom(cap - |t.forward|, t.forward, batch, Median(t.root));
  }

  lemma UpdatedPrunes(cap: nat, limit: nat, t: Table, batch: seq<(Key, real)>, t': Table)
    requires |t.forward| <= cap && Updated(cap, limit, t, batch, t')
    ensures var learned := Learned(cap - |t.forward|, t.forward, batch, Median(t.root));
            |t'.forward| == if |learned| <= limit then |learned| else limit
  {
    hide Learned, Paired;
  }

  /** What the score of each key is that a whole update leaves in a table. */
  lemma UpdateMoves(cap: nat, limit: nat, t: Table, batch: seq<(Key, real)>, t': Table, k: Key)
    returns (target: real)
    requires |t.forward| <= cap && Updated(cap, limit, t, batch, t') && k in t'.forward
    ensures if k in t.forward
            then IsTarget(batch, k, Median(t.root), target)
                 && t'.forward[k] == 0.95 * t.forward[k] + 0.05 * target
            else var n := |SamplesOf(batch, k)|; n >= 5 && t'.forward[k] * n as real == Sum(batch, k)
  {
    hide Learned;
    var room := cap - |t.forward|;
    if k in t.forward {
      target := ResidentLearns(room, t.forward, batch, Median(t.root), k);
    } else {
      AbsentLearns(room, t.forward, batch, Median(t.root), k);
      target := 0.0;
    }
  }

  // ------------------------------------------------- at most |batch| / 5 keys

  /** The samples of other keys. */
  ghost function Others(batch: seq<(Key, real)>, k: Key): seq<(Key, real)> {
    if batch == [] then []
    else
      var rest := Others(batch[..|batch| - 1], k);
      if batch[|batch| - 1].0 == k then rest else rest + [batch[|batch| - 1]]
  }

  lemma {:induction false} OthersCount(batch: seq<(Key, real)>, k: Key, j: Key)
    ensures |Others(batch, k)| + Count(batch, k) == |batch|
    ensures Count(Others(batch, k), j) == if j == k then 0 else Count(batch, j)
  {
    if batch != [] {
      var n := |batch| - 1;
      OthersCount(batch[..n], k, j);
      var rest := Others(batch[..n], k);
      assert (rest + [batch[n]])[..|rest|] == rest;
    }
  }

  lemma {:induction false} FrequentCounts(batch: seq<(Key, real)>, ks: set<Key>)
    requires forall k :: k in ks ==> Count(batch, k) >= 5
    ensures 5 * |ks| <= |batch|
    decreases |ks|
  {
    if ks != {} {
      var k :| k in ks;
      forall j | j in ks - {k} ensures Count(Others(batch, k), j) >= 5 {
        OthersCount(batch, k, j);
      }
      OthersCount(batch, k, k);
      FrequentCounts(Others(batch, k), ks - {k});
    }
  }

  /** Keys with at least five samples each use up five samples each. */
  lemma FrequentKeysAreFew(batch: seq<(Key, real)>, ks: set<Key>)
    requires forall k :: k in ks ==> |SamplesOf(batch, k)| >= 5
    ensures 5 * |ks| <= |batch|
  {
    forall k | k in ks ensures Count(batch, k) >= 5 {
      CountIsSamples(batch, k);
    }
    FrequentCounts(batch, ks);
  }

  /** When a fifth of the batch fits into the room, every absent key with five samples enters. */
  lemma NoneRefused(room: nat, m: map<Key, real>, batch: seq<(Key, real)>, median: real)
    requires |batch| < 5 * (room + 1)
    ensures Least(Entrants(m, batch), room) == Entrants(m, batch)
    ensures Learned(room, m, batch, median).Keys == m.Keys + FrequentAbsent(m, batch)
    ensures |FrequentAbsent(m, batch)| <= room
  {
    EntrantsAreFrequent(m, batch);
    FrequentKeysAreFew(batch, FrequentAbsent(m, batch));
    LeastAll(Entrants(m, batch), room);
  }

  /** Learning never overfills: it adds at most the room that is left. */
  lemma LearnedSize(room: nat, m: map<Key, real>, batch: seq<(Key, real)>, median: real)
    ensures |Learned(room, m, batch, median)| <= |m| + room
  {
    var e := Least(Entrants(m, batch), room);
    LeastSize(Entrants(m, batch), room);
    assert Learned(room, m, batch, median).Keys == m.Keys + e;
  }

  // ------------------------------------------------- order of the batch

  lemma {:induction false} CountTotalAt(batch: seq<(Key, real)>, i: nat, k: Key)
    requires i < |batch|
    ensures Count(batch, k) == Count(batch[..i] + batch[i + 1..], k) + if batch[i].0 == k then 1 else 0
    ensures Sum(batch, k) == Sum(batch[..i] + batch[i + 1..], k) + if batch[i].0 == k then batch[i].1 else 0.0
    decreases |batch|
  {
    var n := |batch| - 1;
    var rest := batch[..i] + batch[i + 1..];
    if i == n {
      assert rest == batch[..n];
    } else {
      CountTotalAt(batch[..n], i, k);
      assert rest[..|rest| - 1] == batch[..n][..i] + batch[..n][i + 1..];
      assert rest[|rest| - 1] == batch[n];
    }
  }

  lemma MultisetCut<T>(s: seq<T>, i: nat)
    requires i < |s|
    ensures multiset(s[..i] + s[i + 1..]) == multiset(s) - multiset{s[i]}
  {
    assert s == s[..i] + [s[i]] + s[i + 1..];
  }

  lemma {:induction false} OrderIrrelevantForKey(a: seq<(Key, real)>, b: seq<(Key, real)>, k: Key)
    requires multiset(a) == multiset(b)
    ensures Count(a, k) == Count(b, k) && Sum(a, k) == Sum(b, k)
    decreases |a|
  {
    if a == [] {
      assert |multiset(b)| == 0;
    } else {
      var n := |a| - 1;
      assert a[n] in multiset(b);
      var i :| 0 <= i < |b| && b[i] == a[n];
      MultisetCut(a, n);
      MultisetCut(b, i);
      OrderIrrelevantForKey(a[..n] + a[n + 1..], b[..i] + b[i + 1..], k);
      CountTotalAt(a, n, k);
      CountTotalAt(b, i, k);
    }
  }

  /** Over the reals, what is learned does not depend on the order of the batch. */
  lemma OrderIrrelevant(room: nat, m: map<Key, real>, a: seq<(Key, real)>, b: seq<(Key, real)>, median: real)
    requires multiset(a) == multiset(b)
    ensures Learned(room, m, a, median) == Learned(room, m, b, median)
  {
    forall k ensures Count(a, k) == Count(b, k) && Sum(a, k) == Sum(b, k) {
      OrderIrrelevantForKey(a, b, k);
    }
    assert forall s :: s in a <==> s in multiset(a);
    assert forall s :: s in b <==> s in multiset(b);
    assert BatchKeys(a) == BatchKeys(b);
    assert Entrants(m, a) == Entrants(m, b);
  }

  // ---------------------------------------------------------- score stability

  ghost predicate Within(lo: real, hi: real, x: real) {
    lo <= x <= hi
  }

  ghost predicate AllWithin(lo: real, hi: real, m: map<Key, real>) {
    forall k :: k in m ==> Within(lo, hi, m[k])
  }

  ghost function Times(n: nat, x: real): real {
    if n == 0 then 0.0 else Times(n - 1, x) + x
  }

  lemma Distribute(c: real, x: real)
    ensures (c + 1.0) * x == c * x + x
  {
  }

  lemma {:induction false} TimesIsProduct(n: nat, x: real)
    ensures Times(n, x) == n as real * x
  {
    if n > 0 {
      TimesIsProduct(n - 1, x);
      Distribute((n - 1) as real, x);
      assert n as real == (n - 1) as real + 1.0;
    }
  }

  lemma {:induction false} SumWithin(batch: seq<(Key, real)>, k: Key, lo: real, hi: real)
    requires forall s :: s in batch ==> Within(lo, hi, s.1)
    ensures Times(Count(batch, k), lo) <= Sum(batch, k) <= Times(Count(batch, k), hi)
  {
    if batch != [] {
      var init, last := batch[..|batch| - 1], batch[|batch| - 1];
      assert last in batch && forall s :: s in init ==> s in batch;
      SumWithin(init, k, lo, hi);
    }
  }

  lemma QuotientBounds(s: real, n: real, lo: real, hi: real)
    requires n > 0.0 && n * lo <= s <= n * hi
    ensures lo <= s / n <= hi
  {
  }

  lemma QuotientWithin(s: real, n: nat, lo: real, hi: real)
    requires n > 0 && Times(n, lo) <= s <= Times(n, hi)
    ensures lo <= s / n as real <= hi
  {
    TimesIsProduct(n, lo);
    TimesIsProduct(n, hi);
    QuotientBounds(s, n as real, lo, hi);
  }

  lemma MeanWithin(batch: seq<(Key, real)>, k: Key, lo: real, hi: real)
    requires Count(batch, k) > 0 && forall s :: s in batch ==> Within(lo, hi, s.1)
    ensures Within(lo, hi, Mean(batch, k))
  {
    SumWithin(batch, k, lo, hi);
    QuotientWithin(Sum(batch, k), Count(batch, k), lo, hi);
  }

  lemma EmaWithin(x: real, y: real, lo: real, hi: real)
    requires Within(lo, hi, x) && Within(lo, hi, y)
    ensures Within(lo, hi, Ema(x, y))
  {
  }

  /** The root's score is a score of the table. */
  lemma MedianIsScore(t: Table, k: Key)
    requires Paired(t) && k in t.forward
    ensures t.root.Some? && t.root.value.1 in t.forward && Median(t.root) == t.forward[t.root.value.1]
  {
    assert (t.forward[k], k) in t.inverse;
  }

  lemma LearnedWithin(room: nat, t: Table, batch: seq<(Key, real)>, k: Key, lo: real, hi: real)
    requires Paired(t) && AllWithin(lo, hi, t.forward)
    requires forall s :: s in batch ==> Within(lo, hi, s.1)
    requires k in Learned(room, t.forward, batch, Median(t.root))
    ensures Within(lo, hi, Learned(room, t.forward, batch, Median(t.root))[k])
  {
    if Count(batch, k) >= MIN_SAMPLES {
      MeanWithin(batch, k, lo, hi);
    }
    if k in t.forward {
      MedianIsScore(t, k);
      EmaWithin(t.forward[k], Target(batch, k, Median(t.root)), lo, hi);
    }
  }

  /** Every score after an update lies in the hull of the old scores and the batch values. */
  lemma HullKept(cap: nat, limit: nat, t: Table, batch: seq<(Key, real)>, t': Table, lo: real, hi: real)
    requires Paired(t) && |t.forward| <= cap && Updated(cap, limit, t, batch, t')
    requires AllWithin(lo, hi, t.forward) && forall s :: s in batch ==> Within(lo, hi, s.1)
    ensures AllWithin(lo, hi, t'.forward)
  {
    forall k | k in t'.forward ensures Within(lo, hi, t'.forward[k]) {
      LearnedWithin(cap - |t.forward|, t, batch, k, lo, hi);
    }
  }

  /** How far `x` is outside the interval. */
  ghost function Distance(x: real, lo: real, hi: real): real {
    if x < lo then lo - x else if x > hi then x - hi else 0.0
  }

  lemma EmaContracts(x: real, target: real, lo: real, hi: real)
    requires Within(lo, hi, target)
    ensures Ema(x, target) - target == 0.95 * (x - target)
    ensures Distance(Ema(x, target), lo, hi) <= 0.95 * Distance(x, lo, hi)
  {
  }

  /** `d` times 0.95 to the `n`. */
  ghost function Shrunk(n: nat, d: real): real {
    if n == 0 then d else 0.95 * Shrunk(n - 1, d)
  }

  /** The table goes through a sequence of updates, one per batch. */
  ghost predicate UpdateRun(cap: nat, limit: nat, ts: seq<Table>, batches: seq<seq<(Key, real)>>) {
    && |ts| == |batches| + 1
    && (forall i :: 0 <= i < |ts| ==> |ts[i].forward| <= cap)
    && (forall i, j :: 0 <= i < j < |ts| && j <= i + 1 ==> Updated(cap, limit, ts[i], batches[i], ts[j]))
  }

  lemma UpdateRunInit(cap: nat, limit: nat, ts: seq<Table>, batches: seq<seq<(Key, real)>>)
    requires UpdateRun(cap, limit, ts, batches) && batches != []
    ensures UpdateRun(cap, limit, ts[..|batches|], batches[..|batches| - 1])
  {
  }

  lemma UpdateContracts(
      cap: nat, limit: nat, t: Table, batch: seq<(Key, real)>, t': Table, k: Key, lo: real, hi: real)
    requires |t.forward| <= cap && Updated(cap, limit, t, batch, t')
    requires k in t.forward && k in t'.forward && Within(lo, hi, Target(batch, k, Median(t.root)))
    ensures Distance(t'.forward[k], lo, hi) <= 0.95 * Distance(t.forward[k], lo, hi)
  {
    EmaContracts(t.forward[k], Target(batch, k, Median(t.root)), lo, hi);
  }

  /**
   A key resident through n updates whose targets all lie in [lo, hi] has its
   distance to the interval shrunk at least by the factor 0.95 to the n.
   */
  lemma {:induction false} Converges(
      cap: nat, limit: nat, ts: seq<Table>, batches: seq<seq<(Key, real)>>, k: Key, lo: real, hi: real)
    requires UpdateRun(cap, limit, ts, batches)
    requires forall i :: 0 <= i < |ts| ==> k in ts[i].forward
    requires forall i :: 0 <= i < |batches| ==> Within(lo, hi, Target(batches[i], k, Median(ts[i].root)))
    ensures Distance(ts[|batches|].forward[k], lo, hi)
            <= Shrunk(|batches|, Distance(ts[0].forward[k], lo, hi))
  {
    var n := |batches|;
    if n > 0 {
      UpdateRunInit(cap, limit, ts, batches);
      Converges(cap, limit, ts[..n], batches[..n - 1], k, lo, hi);
      UpdateContracts(cap, limit, ts[n - 1], batches[n - 1], ts[n], k, lo, hi);
      assert ts[..n][n - 1] == ts[n - 1] && ts[..n][0] == ts[0];
    }
  }
}
