/**
 The simple cache that `lru/src/lib.rs` has to refine: a list of (key, value)
 entries, most recently touched first, with no links, slots or free list.
 The run-level properties of the cache are proved here, on lists.
 */
module Recency {
  import opened Wrappers
  import opened Basics

  type Entries<K, V> = seq<(K, V)>

  // ---------------------------------------------------------------- lookup

  /** The position of the first entry under `k`, or `|l|` when there is none. */
  function Find<K(==), V>(l: Entries<K, V>, k: K): (i: nat)
    ensures i <= |l|
    ensures i < |l| ==> l[i].0 == k
    ensures forall j :: 0 <= j < i ==> l[j].0 != k
  {
    if l == [] || l[0].0 == k then 0 else 1 + Find(l[1..], k)
  }

  predicate Has<K(==), V>(l: Entries<K, V>, k: K) {
    Find(l, k) < |l|
  }

  ghost predicate Distinct<K, V>(l: Entries<K, V>) {
    forall i, j :: 0 <= i < j < |l| ==> l[i].0 != l[j].0
  }

  ghost predicate WellFormed<K, V>(cap: nat, l: Entries<K, V>) {
    0 < cap && |l| <= cap && Distinct(l)
  }

  function Cut<K, V>(l: Entries<K, V>, i: nat): Entries<K, V>
    requires i < |l|
  {
    l[..i] + l[i + 1..]
  }

  function Without<K(==), V>(l: Entries<K, V>, k: K): Entries<K, V> {
    if Has(l, k) then Cut(l, Find(l, k)) else l
  }

  // ------------------------------------------------------------ operations

  datatype PutResult<K, V> =
    PutResult(list: Entries<K, V>, evicted: Option<(K, V)>, duplicate: bool)

  function Put<K(==), V>(cap: nat, l: Entries<K, V>, k: K, v: V): PutResult<K, V>
    requires 0 < cap
  {
    if Has(l, k) then
      PutResult([(k, v)] + Without(l, k), None, true)
    else if |l| == cap then
      PutResult([(k, v)] + l[..cap - 1], Some(l[cap - 1]), false)
    else
      PutResult([(k, v)] + l, None, false)
  }

  function Get<K(==), V>(l: Entries<K, V>, k: K): (Entries<K, V>, Option<V>) {
    if Has(l, k) then
      ([l[Find(l, k)]] + Without(l, k), Some(l[Find(l, k)].1))
    else
      (l, None)
  }

  function Pop<K(==), V>(l: Entries<K, V>, k: K): (Entries<K, V>, Option<(K, V)>) {
    if Has(l, k) then (Without(l, k), Some(l[Find(l, k)])) else (l, None)
  }

  datatype Op<K, V> = OpPut(key: K, value: V) | OpGet(key: K) | OpPop(key: K) | OpContains(key: K)

  function Apply<K(==), V>(cap: nat, l: Entries<K, V>, op: Op<K, V>): Entries<K, V>
    requires 0 < cap
  {
    match op
    case OpPut(k, v) => Put(cap, l, k, v).list
    case OpGet(k) => Get(l, k).0
    case OpPop(k) => Pop(l, k).0
    case OpContains(_) => l
  }

  function Run<K(==), V>(cap: nat, l: Entries<K, V>, ops: seq<Op<K, V>>): Entries<K, V>
    requires 0 < cap
  {
    if ops == [] then l
    else Apply(cap, Run(cap, l, ops[..|ops| - 1]), ops[|ops| - 1])
  }

  /** A key is touched by a put, and by a get that finds it. */
  function Touch<K(==), V>(l: Entries<K, V>, op: Op<K, V>): seq<K> {
    if op.OpPut? || (op.OpGet? && Has(l, op.key)) then [op.key] else []
  }

  /** The keys touched by a run, oldest first. */
  function Touches<K(==), V>(cap: nat, l: Entries<K, V>, ops: seq<Op<K, V>>): seq<K>
    requires 0 < cap
  {
    if ops == [] then []
    else
      var init := ops[..|ops| - 1];
      Touches(cap, l, init) + Touch(Run(cap, l, init), ops[|ops| - 1])
  }

  // ------------------------------------------------------------ basic facts

  lemma FindUnique<K, V>(l: Entries<K, V>, k: K, i: nat)
    requires Distinct(l) && i < |l| && l[i].0 == k
    ensures Find(l, k) == i
  {
  }

  lemma CutDistinct<K, V>(l: Entries<K, V>, i: nat)
    requires Distinct(l) && i < |l|
    ensures Distinct(Cut(l, i)) && !Has(Cut(l, i), l[i].0)
  {
    var c := Cut(l, i);
    assert forall a :: 0 <= a < |c| ==> c[a] == l[if a < i then a else a + 1];
  }

  lemma FrontDistinct<K, V>(e: (K, V), rest: Entries<K, V>)
    requires Distinct(rest) && !Has(rest, e.0)
    ensures Distinct([e] + rest)
  {
    assert forall j :: 0 < j <= |rest| ==> ([e] + rest)[j] == rest[j - 1];
  }

  /** Every operation keeps the keys distinct and the list within capacity. */
  lemma ApplyWellFormed<K, V>(cap: nat, l: Entries<K, V>, op: Op<K, V>)
    requires WellFormed(cap, l)
    ensures WellFormed(cap, Apply(cap, l, op))
  {
    if Has(l, op.key) {
      CutDistinct(l, Find(l, op.key));
    }
    if op.OpPut? || (op.OpGet? && Has(l, op.key)) {
      var rest := if Has(l, op.key) then Without(l, op.key) else if |l| == cap then l[..cap - 1] else l;
      assert !Has(rest, op.key) && Distinct(rest);
      FrontDistinct(Apply(cap, l, op)[0], rest);
    }
  }

  lemma {:induction false} RunWellFormed<K, V>(cap: nat, l: Entries<K, V>, ops: seq<Op<K, V>>)
    requires WellFormed(cap, l)
    ensures WellFormed(cap, Run(cap, l, ops))
  {
    if ops != [] {
      RunWellFormed(cap, l, ops[..|ops| - 1]);
      ApplyWellFormed(cap, Run(cap, l, ops[..|ops| - 1]), ops[|ops| - 1]);
    }
  }

  // ------------------------------------------------------ what is returned

  /** A put evicts exactly the entry whose key was resident and no longer is; it is a duplicate exactly for a resident key. */
  lemma PutEvictsWhatLeaves<K, V>(cap: nat, l: Entries<K, V>, k: K, v: V, x: (K, V))
    requires WellFormed(cap, l)
    ensures var r := Put(cap, l, k, v);
            && (r.evicted == Some(x) <==> x in l && !Has(r.list, x.0))
            && (r.duplicate <==> k in KeysOf(l))
  {
    var r := Put(cap, l, k, v);
    HasKey(l, k);
    if x in l {
      var i :| 0 <= i < |l| && l[i] == x;
      if Has(l, k) || |l| < cap || i < cap - 1 {
        PutKeeps(cap, l, k, v, i);
      } else {
        LastLeaves(cap, l, k, v);
      }
    }
  }

  lemma PutKeeps<K, V>(cap: nat, l: Entries<K, V>, k: K, v: V, i: nat)
    requires WellFormed(cap, l) && i < |l| && (Has(l, k) || |l| < cap || i < cap - 1)
    ensures Has(Put(cap, l, k, v).list, l[i].0) && Put(cap, l, k, v).evicted != Some(l[i])
  {
    var r := Put(cap, l, k, v).list;
    var p := Find(l, k);
    assert r[if i < p then i + 1 else if i == p then 0 else i].0 == l[i].0;
  }

  lemma LastLeaves<K, V>(cap: nat, l: Entries<K, V>, k: K, v: V)
    requires WellFormed(cap, l) && !Has(l, k) && |l| == cap
    ensures !Has(Put(cap, l, k, v).list, l[cap - 1].0) && Put(cap, l, k, v).evicted == Some(l[cap - 1])
  {
    var r := Put(cap, l, k, v).list;
    assert forall j :: 0 < j < |r| ==> r[j] == l[j - 1];
  }

  /** A pop returns the entry under its key and leaves the others in order. */
  lemma PopReturnsEntry<K, V>(l: Entries<K, V>, k: K, i: nat)
    requires Distinct(l) && i < |l| && l[i].0 == k
    ensures Pop(l, k) == (l[..i] + l[i + 1..], Some(l[i]))
  {
    FindUnique(l, k, i);
  }

  /** The value most recently put under `k`. */
  ghost function LastValue<K, V>(ops: seq<Op<K, V>>, k: K): Option<V> {
    if ops == [] then None
    else
      var op := ops[|ops| - 1];
      if op.OpPut? && op.key == k then Some(op.value) else LastValue(ops[..|ops| - 1], k)
  }

  lemma ApplyOrigin<K, V>(cap: nat, l: Entries<K, V>, op: Op<K, V>, x: (K, V))
    requires WellFormed(cap, l) && x in Apply(cap, l, op)
    ensures (op.OpPut? && x == (op.key, op.value)) || (x in l && !(op.OpPut? && op.key == x.0))
  {
    if Has(l, op.key) {
      CutDistinct(l, Find(l, op.key));
    }
  }

  lemma {:induction false} ResidentValue<K, V>(cap: nat, ops: seq<Op<K, V>>, x: (K, V))
    requires 0 < cap && x in Run(cap, [], ops)
    ensures LastValue(ops, x.0) == Some(x.1)
  {
    hide Apply;
    if ops != [] {
      var init, op := ops[..|ops| - 1], ops[|ops| - 1];
      RunWellFormed(cap, [], init);
      ApplyOrigin(cap, Run(cap, [], init), op, x);
      if x in Run(cap, [], init) {
        ResidentValue(cap, init, x);
      }
    }
  }

  /** After any run a get that hits returns the value most recently put under its key. */
  lemma GetReturnsLastPut<K, V>(cap: nat, ops: seq<Op<K, V>>, k: K)
    requires 0 < cap
    ensures var r := Get(Run(cap, [], ops), k).1; r.Some? ==> r == LastValue(ops, k)
    ensures Get(Run(cap, [], ops), k).1.Some? <==> k in KeysOf(Run(cap, [], ops))
  {
    var l := Run(cap, [], ops);
    HasKey(l, k);
    if Has(l, k) {
      ResidentValue(cap, ops, l[Find(l, k)]);
    }
  }

  // -------------------------------------------------- when a key may leave

  ghost function KeysOf<K, V>(l: Entries<K, V>): set<K> {
    set e | e in l :: e.0
  }

  lemma HasKey<K, V>(l: Entries<K, V>, k: K)
    ensures Has(l, k) <==> k in KeysOf(l)
  {
    if Has(l, k) {
      assert l[Find(l, k)] in l;
    }
  }

  lemma {:induction false} KeysOfSize<K, V>(l: Entries<K, V>)
    requires Distinct(l)
    ensures |KeysOf(l)| == |l|
  {
    if l != [] {
      var n := |l| - 1;
      KeysOfSize(l[..n]);
      assert l == l[..n] + [l[n]];
      assert forall i :: 0 <= i < n ==> l[..n][i].0 != l[n].0;
      assert l[n].0 !in KeysOf(l[..n]);
      assert KeysOf(l) == KeysOf(l[..n]) + {l[n].0};
    }
  }

  ghost function Elements<K>(s: seq<K>): set<K> {
    set x | x in s
  }

  /** The entries more recent than the one under `k`. */
  ghost function Ahead<K, V>(l: Entries<K, V>, k: K): set<K> {
    KeysOf(l[..Find(l, k)])
  }

  lemma AheadCut<K, V>(l: Entries<K, V>, q: nat, k: K)
    requires Distinct(l) && Has(l, k) && q < |l| && l[q].0 != k
    ensures Has(Cut(l, q), k) && Ahead(Cut(l, q), k) <= Ahead(l, k)
  {
    var c, p := Cut(l, q), Find(l, k);
    var p' := if q < p then p - 1 else p;
    CutDistinct(l, q);
    assert c[p'].0 == k;
    FindUnique(c, k, p');
    forall e | e in c[..p'] ensures e in l[..p] {
      var i :| 0 <= i < p' && c[i] == e;
      assert e == l[..p][if i < q then i else i + 1];
    }
  }

  lemma AheadFront<K, V>(e: (K, V), l: Entries<K, V>, k: K)
    requires Has(l, k) && e.0 != k
    ensures Has([e] + l, k) && Ahead([e] + l, k) == {e.0} + Ahead(l, k)
  {
    var r, p := [e] + l, Find(l, k);
    assert r[1..] == l;
    assert Find(r, k) == p + 1;
    assert r[..p + 1] == [e] + l[..p];
  }

  lemma AheadInit<K, V>(l: Entries<K, V>, n: nat, k: K)
    requires Find(l, k) < n <= |l|
    ensures Has(l[..n], k) && Ahead(l[..n], k) == Ahead(l, k)
  {
    var p := Find(l, k);
    assert l[..n][p].0 == k;
    assert Find(l[..n], k) == p;
    assert l[..n][..p] == l[..p];
  }

  /** Fewer than `cap` keys at or ahead of a fresh one leave room behind `k`. */
  lemma RoomBehind<K, V>(cap: nat, l: Entries<K, V>, k: K, x: K)
    requires WellFormed(cap, l) && Has(l, k) && !Has(l, x)
    requires |Ahead(l, k) + {x}| < cap
    ensures Find(l, k) + 1 < cap
  {
    var front := l[..Find(l, k)];
    assert Distinct(front);
    KeysOfSize(front);
    assert x !in KeysOf(front);
  }

  lemma NothingAhead<K, V>(l: Entries<K, V>, k: K)
    requires l != [] && l[0].0 == k
    ensures Has(l, k) && Ahead(l, k) == {}
  {
  }

  /** Touching another key puts that key ahead of `k`, and nothing else. */
  lemma AheadTouch<K, V>(cap: nat, l: Entries<K, V>, op: Op<K, V>, k: K)
    requires WellFormed(cap, l) && Has(l, k) && op.key != k && Touch(l, op) != []
    requires |Ahead(l, k) + {op.key}| < cap
    ensures Has(Apply(cap, l, op), k)
    ensures Ahead(Apply(cap, l, op), k) <= Ahead(l, k) + {op.key}
  {
    hide Ahead;
    var r := Apply(cap, l, op);
    if Has(l, op.key) {
      AheadCut(l, Find(l, op.key), k);
      AheadFront(r[0], Without(l, op.key), k);
    } else {
      RoomBehind(cap, l, k, op.key);
      var n := if |l| == cap then cap - 1 else |l|;
      AheadInit(l, n, k);
      assert l[..|l|] == l;
      AheadFront(r[0], l[..n], k);
    }
  }

  /**
   One operation that does not pop `k`: the keys ahead of `k` grow by at most
   the touched key, and `k` survives while these are fewer than `cap`.
   */
  lemma AheadStep<K, V>(cap: nat, l: Entries<K, V>, op: Op<K, V>, k: K)
    requires WellFormed(cap, l) && Has(l, k) && op != OpPop(k)
    requires |Ahead(l, k) + (Elements(Touch(l, op)) - {k})| < cap
    ensures Has(Apply(cap, l, op), k)
    ensures Ahead(Apply(cap, l, op), k) <= Ahead(l, k) + (Elements(Touch(l, op)) - {k})
  {
    hide Ahead;
    var r := Apply(cap, l, op);
    if op.OpContains? || (!op.OpPut? && !Has(l, op.key)) {
      assert r == l;
    } else if op.OpPop? {
      AheadCut(l, Find(l, op.key), k);
    } else if op.key == k {
      NothingAhead(r, k);
    } else {
      assert Elements(Touch(l, op)) - {k} == {op.key};
      AheadTouch(cap, l, op, k);
    }
  }

  /**
   A key is not lost before `cap` distinct other keys were touched: from the
   moment `k` is the most recent entry, any run that never pops `k` and touches
   fewer than `cap` other keys leaves `k` resident.
   */
  lemma {:induction false} StaysResident<K, V>(cap: nat, l: Entries<K, V>, ops: seq<Op<K, V>>, k: K)
    requires WellFormed(cap, l) && l != [] && l[0].0 == k
    requires OpPop(k) !in ops
    requires |Elements(Touches(cap, l, ops)) - {k}| < cap
    ensures Has(Run(cap, l, ops), k)
    ensures Ahead(Run(cap, l, ops), k) <= Elements(Touches(cap, l, ops)) - {k}
  {
    if ops == [] {
      assert Find(l, k) == 0;
    } else {
      var init, op := ops[..|ops| - 1], ops[|ops| - 1];
      var mid := Run(cap, l, init);
      var touched := Elements(Touches(cap, l, init)) - {k};
      var now := Elements(Touch(mid, op)) - {k};
      assert Elements(Touches(cap, l, ops)) - {k} == touched + now;
      SubsetSize(touched, touched + now);
      StaysResident(cap, l, init, k);
      RunWellFormed(cap, l, init);
      assert Ahead(mid, k) + now <= touched + now;
      SubsetSize(Ahead(mid, k) + now, touched + now);
      AheadStep(cap, mid, op, k);
    }
  }

  lemma {:induction false} RunSplit<K, V>(cap: nat, l: Entries<K, V>, a: seq<Op<K, V>>, b: seq<Op<K, V>>)
    requires 0 < cap
    ensures Run(cap, l, a + b) == Run(cap, Run(cap, l, a), b)
  {
    if b == [] {
      assert a + b == a;
    } else {
      RunSplit(cap, l, a, b[..|b| - 1]);
      assert (a + b)[..|a + b| - 1] == a + b[..|b| - 1];
    }
  }

  lemma RunSnoc<K, V>(cap: nat, l: Entries<K, V>, ops: seq<Op<K, V>>, op: Op<K, V>)
    requires 0 < cap
    ensures Run(cap, l, ops + [op]) == Apply(cap, Run(cap, l, ops), op)
  {
    assert (ops + [op])[..|ops|] == ops;
  }

  /** A put makes its key the most recent one. */
  lemma PutIsFirst<K, V>(cap: nat, l: Entries<K, V>, k: K, v: V)
    requires 0 < cap
    ensures var r := Apply(cap, l, OpPut(k, v)); r != [] && r[0] == (k, v) && Has(r, k)
  {
  }

  /**
   The eviction law over whole runs: whatever happened before, when some
   operation touches `k` and `k` is absent after the operations that follow,
   then these contain a pop of `k` or touched at least `cap` other keys.
   */
  lemma LeavesOnlyByPopOrPressure<K, V>(cap: nat, before: seq<Op<K, V>>, op: Op<K, V>, after: seq<Op<K, V>>)
    requires 0 < cap
    requires Touch(Run(cap, [], before), op) != []
    requires !Has(Run(cap, [], before + [op] + after), op.key)
    ensures OpPop(op.key) in after
            || cap <= |Elements(Touches(cap, Run(cap, [], before + [op]), after)) - {op.key}|
  {
    var l := Run(cap, [], before + [op]);
    RunWellFormed(cap, [], before + [op]);
    RunSplit(cap, [], before + [op], after);
    RunSplit(cap, [], before, [op]);
    assert l == Apply(cap, Run(cap, [], before), op) by {
      assert Run(cap, Run(cap, [], before), [op]) == Apply(cap, Run(cap, Run(cap, [], before), []), op);
    }
    if OpPop(op.key) !in after && |Elements(Touches(cap, l, after)) - {op.key}| < cap {
      StaysResident(cap, l, after, op.key);
    }
  }

  // ------------------------------------------- exact contents without pops

  /** The distinct keys of `ts` outside `seen`, latest occurrence first. */
  ghost function Latest<K>(ts: seq<K>, seen: set<K>): seq<K> {
    if ts == [] then []
    else
      var t, init := ts[|ts| - 1], ts[..|ts| - 1];
      if t in seen then Latest(init, seen) else [t] + Latest(init, seen + {t})
  }

  ghost function Keys<K, V>(l: Entries<K, V>): (ks: seq<K>)
    ensures |ks| == |l| && forall i :: 0 <= i < |l| ==> ks[i] == l[i].0
  {
    seq(|l|, i requires 0 <= i < |l| => l[i].0)
  }

  ghost function Take<T>(s: seq<T>, n: nat): seq<T> {
    if |s| <= n then s else s[..n]
  }

  ghost function Drop<K>(s: seq<K>, k: K): seq<K> {
    if s == [] then [] else if s[0] == k then Drop(s[1..], k) else [s[0]] + Drop(s[1..], k)
  }

  lemma {:induction false} DropAbsent<K>(s: seq<K>, k: K)
    requires k !in s
    ensures Drop(s, k) == s
  {
    if s != [] {
      DropAbsent(s[1..], k);
    }
  }

  lemma {:induction false} LatestElements<K>(ts: seq<K>, seen: set<K>)
    ensures forall k :: k in Latest(ts, seen) <==> k in ts && k !in seen
    ensures NoRepeat(Latest(ts, seen))
  {
    if ts != [] {
      var t, init := ts[|ts| - 1], ts[..|ts| - 1];
      assert ts == init + [t];
      LatestElements(init, if t in seen then seen else seen + {t});
    }
  }

  lemma {:induction false} LatestSeen<K>(ts: seq<K>, seen: set<K>, k: K)
    ensures Latest(ts, seen + {k}) == Drop(Latest(ts, seen), k)
  {
    if ts != [] {
      var t, init := ts[|ts| - 1], ts[..|ts| - 1];
      if t in seen {
        LatestSeen(init, seen, k);
      } else if t == k {
        LatestElements(init, seen + {t});
        DropAbsent(Latest(init, seen + {t}), k);
        assert Latest(ts, seen)[1..] == Latest(init, seen + {t});
      } else {
        LatestSeen(init, seen + {t}, k);
        assert seen + {t} + {k} == seen + {k} + {t};
        assert Latest(ts, seen)[1..] == Latest(init, seen + {t});
      }
    }
  }

  /** Removing the only occurrence of an element at `i`. */
  lemma {:induction false} DropAt<K>(s: seq<K>, i: nat)
    requires i < |s| && NoRepeat(s)
    ensures Drop(s, s[i]) == s[..i] + s[i + 1..]
  {
    if i == 0 {
      DropAbsent(s[1..], s[0]);
    } else {
      var t := s[1..];
      DropAt(t, i - 1);
      assert s[..i] + s[i + 1..] == [s[0]] + (t[..i - 1] + t[i - 1 + 1..]);
    }
  }

  ghost predicate NoRepeat<K>(s: seq<K>) {
    forall a, b :: 0 <= a < b < |s| ==> s[a] != s[b]
  }

  lemma TakeCut<K>(t: K, s: seq<K>, i: nat, cap: nat)
    requires 0 < cap && i < |s|
    ensures i < cap ==>
              i < |Take(s, cap)|
              && Take([t] + (s[..i] + s[i + 1..]), cap) == [t] + (Take(s, cap)[..i] + Take(s, cap)[i + 1..])
    ensures cap <= i ==> Take([t] + (s[..i] + s[i + 1..]), cap) == [t] + Take(s, cap - 1)
  {
  }

  /** Moving `t` to the front, then keeping `cap` entries, may be done on the kept part alone. */
  lemma FrontOfTake<K>(s: seq<K>, t: K, cap: nat)
    requires 0 < cap && NoRepeat(s)
    ensures Take([t] + Drop(s, t), cap)
            == if t in Take(s, cap) then [t] + Drop(Take(s, cap), t) else [t] + Take(s, cap - 1)
  {
    var h := Take(s, cap);
    assert forall j :: 0 <= j < |h| ==> h[j] == s[j];
    if t in s {
      var i :| 0 <= i < |s| && s[i] == t;
      DropAt(s, i);
      TakeCut(t, s, i, cap);
      if i < cap {
        assert h[i] == t && NoRepeat(h);
        DropAt(h, i);
      } else {
        assert t !in h;
      }
    } else {
      DropAbsent(s, t);
    }
  }

  lemma KeysFront<K, V>(e: (K, V), l: Entries<K, V>)
    ensures Keys([e] + l) == [e.0] + Keys(l)
  {
  }

  lemma KeysCut<K, V>(l: Entries<K, V>, i: nat)
    requires Distinct(l) && i < |l|
    ensures Keys(Cut(l, i)) == Drop(Keys(l), l[i].0)
  {
    assert NoRepeat(Keys(l));
    DropAt(Keys(l), i);
  }

  lemma KeysInit<K, V>(cap: nat, l: Entries<K, V>)
    requires 0 < cap && |l| <= cap
    ensures Keys(if |l| == cap then l[..cap - 1] else l) == Take(Keys(l), cap - 1)
  {
  }

  /** The keys after touching one, in terms of the keys before. */
  lemma KeysAfterTouch<K, V>(cap: nat, l: Entries<K, V>, op: Op<K, V>)
    requires WellFormed(cap, l) && Touch(l, op) != []
    ensures Keys(Apply(cap, l, op))
            == if op.key in Keys(l) then [op.key] + Drop(Keys(l), op.key) else [op.key] + Take(Keys(l), cap - 1)
  {
    var r := Apply(cap, l, op);
    if Has(l, op.key) {
      assert Keys(l)[Find(l, op.key)] == op.key;
      KeysCut(l, Find(l, op.key));
      KeysFront(r[0], Without(l, op.key));
    } else {
      assert forall i :: 0 <= i < |l| ==> Keys(l)[i] != op.key;
      KeysInit(cap, l);
      KeysFront(r[0], if |l| == cap then l[..cap - 1] else l);
    }
  }

  /**
   Without pops the cache holds exactly the `cap` most recently touched
   distinct keys, in order; in a run of puts alone these are the `cap` most
   recently put distinct keys.
   */
  lemma {:induction false} HoldsLatestTouched<K, V>(cap: nat, ops: seq<Op<K, V>>)
    requires 0 < cap && forall op :: op in ops ==> !op.OpPop?
    ensures Keys(Run(cap, [], ops)) == Take(Latest(Touches(cap, [], ops), {}), cap)
  {
    if ops != [] {
      var init, op := ops[..|ops| - 1], ops[|ops| - 1];
      HoldsLatestTouched(cap, init);
      var l := Run(cap, [], init);
      var ts := Touches(cap, [], init);
      RunWellFormed(cap, [], init);
      if Touch(l, op) == [] {
        assert ts + [] == ts;
      } else {
        assert (ts + [op.key])[..|ts|] == ts;
        LatestSeen(ts, {}, op.key);
        LatestElements(ts, {});
        FrontOfTake(Latest(ts, {}), op.key, cap);
        KeysAfterTouch(cap, l, op);
        assert Take(Take(Latest(ts, {}), cap), cap - 1) == Take(Latest(ts, {}), cap - 1);
      }
    }
  }

  ghost function KeyLog<K, V>(ops: seq<Op<K, V>>): seq<K> {
    if ops == [] then [] else KeyLog(ops[..|ops| - 1]) + [ops[|ops| - 1].key]
  }

  /** When every operation is a put, the touched keys are the put keys. */
  lemma {:induction false} PutsTouchEverything<K, V>(cap: nat, l: Entries<K, V>, ops: seq<Op<K, V>>)
    requires 0 < cap && forall op :: op in ops ==> op.OpPut?
    ensures Touches(cap, l, ops) == KeyLog(ops)
  {
    if ops != [] {
      PutsTouchEverything(cap, l, ops[..|ops| - 1]);
    }
  }

  // -------------------------------------------------------------- inclusion

  ghost predicate Prefix<T>(a: seq<T>, b: seq<T>) {
    a <= b
  }

  lemma FindInPrefix<K, V>(a: Entries<K, V>, b: Entries<K, V>, k: K)
    requires Prefix(a, b)
    ensures if Has(a, k) then Find(b, k) == Find(a, k) else |a| <= Find(b, k)
  {
    assert forall i :: 0 <= i < |a| ==> a[i] == b[i];
  }

  lemma PrefixCut<T>(a: seq<T>, b: seq<T>, i: nat)
    requires Prefix(a, b) && i < |b|
    ensures i < |a| ==> Prefix(a[..i] + a[i + 1..], b[..i] + b[i + 1..])
    ensures |a| <= i ==> Prefix(a, b[..i] + b[i + 1..])
  {
  }

  lemma PrefixFront<T>(x: T, a: seq<T>, b: seq<T>)
    requires Prefix(a, b)
    ensures Prefix([x] + a, [x] + b)
  {
  }

  lemma InclusionTouch<K, V>(n: nat, m: nat, a: Entries<K, V>, b: Entries<K, V>, op: Op<K, V>)
    requires n <= m && WellFormed(n, a) && WellFormed(m, b) && Prefix(a, b) && op.OpPut?
    ensures Prefix(Apply(n, a, op), Apply(m, b, op))
  {
    var k, e := op.key, (op.key, op.value);
    FindInPrefix(a, b, k);
    var a' := if Has(a, k) then Without(a, k) else if |a| == n then a[..n - 1] else a;
    var b' := if Has(b, k) then Without(b, k) else if |b| == m then b[..m - 1] else b;
    if Has(b, k) {
      PrefixCut(a, b, Find(b, k));
    }
    assert Prefix(a', b');
    PrefixFront(e, a', b');
  }

  /**
   One operation on a smaller and a larger cache. The smaller list stays a
   prefix of the larger exactly when the operation is not a get that only the
   larger cache answers while the smaller holds something.
   */
  lemma InclusionStep<K, V>(n: nat, m: nat, a: Entries<K, V>, b: Entries<K, V>, op: Op<K, V>)
    requires n <= m && WellFormed(n, a) && WellFormed(m, b) && Prefix(a, b)
    ensures Prefix(Apply(n, a, op), Apply(m, b, op))
            <==> !(op.OpGet? && Has(b, op.key) && !Has(a, op.key) && a != [])
  {
    var k := op.key;
    FindInPrefix(a, b, k);
    if op.OpPut? {
      InclusionTouch(n, m, a, b, op);
    } else if Has(b, k) && !op.OpContains? {
      PrefixCut(a, b, Find(b, k));
      if op.OpGet? && Has(a, k) {
        PrefixFront(b[Find(b, k)], Without(a, k), Without(b, k));
      } else if op.OpGet? && a != [] {
        assert Apply(m, b, op)[0].0 == k && Apply(n, a, op)[0] == a[0] && a[0].0 != k;
      }
    }
  }

  /** The inclusion property over every run of puts, pops and contains. */
  lemma {:induction false} Inclusion<K, V>(n: nat, m: nat, ops: seq<Op<K, V>>)
    requires 0 < n <= m && forall op :: op in ops ==> !op.OpGet?
    ensures Prefix(Run(n, [], ops), Run(m, [], ops))
  {
    if ops != [] {
      var init := ops[..|ops| - 1];
      Inclusion(n, m, init);
      RunWellFormed(n, [], init);
      RunWellFormed(m, [], init);
      InclusionStep(n, m, Run(n, [], init), Run(m, [], init), ops[|ops| - 1]);
    }
  }
}
