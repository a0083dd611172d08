/**
 The array-backed cache of `lru/src/lib.rs`: a doubly linked list threaded
 through an array of slots, a key-to-slot index and a stack of free slots.
 Every method is proved against the recency list of module `Recency`.
 */
module Lru {
  import opened Wrappers
  import Recency

  datatype Node<K, V> = Node(key: K, value: V, prev: Option<nat>, next: Option<nat>)

  type Slots<K, V> = seq<Option<Node<K, V>>>

  // ------------------------------------------- the representation invariant

  /** The slots of `order` are occupied and distinct, and their links run through `order` both ways. */
  ghost predicate Linked<K, V>(ns: Slots<K, V>, order: seq<nat>) {
    && Recency.NoRepeat(order)
    && (forall i :: 0 <= i < |order| ==> order[i] < |ns| && ns[order[i]].Some?)
    && (forall i, j :: 0 <= i < j < |order| && j <= i + 1 ==>
          ns[order[i]].value.next == Some(order[j]) && ns[order[j]].value.prev == Some(order[i]))
    && (order != [] ==> ns[order[0]].value.prev == None && ns[order[|order| - 1]].value.next == None)
  }

  ghost predicate Ends(order: seq<nat>, head: Option<nat>, tail: Option<nat>) {
    if order == [] then head == None && tail == None
    else head == Some(order[0]) && tail == Some(order[|order| - 1])
  }

  /** The occupied slots are exactly the range of the index, one key each. */
  ghost predicate Indexed<K, V>(ns: Slots<K, V>, order: seq<nat>, index: map<K, nat>) {
    && |index| == |order|
    && (forall k :: k in index ==> index[k] < |ns| && ns[index[k]].Some? && ns[index[k]].value.key == k)
    && (forall s :: 0 <= s < |ns| && ns[s].Some? ==>
          s in order && ns[s].value.key in index && index[ns[s].value.key] == s)
  }

  /** The free list is the duplicate-free complement of the occupied slots. */
  ghost predicate Free<K, V>(ns: Slots<K, V>, order: seq<nat>, free: seq<nat>) {
    && Recency.NoRepeat(free)
    && |order| + |free| == |ns|
    && (forall i :: 0 <= i < |free| ==> free[i] < |ns| && ns[free[i]].None?)
    && (forall s :: 0 <= s < |ns| && ns[s].None? ==> s in free)
  }

  ghost function EntriesOf<K, V>(ns: Slots<K, V>, order: seq<nat>): (l: Recency.Entries<K, V>)
    requires forall i :: 0 <= i < |order| ==> order[i] < |ns| && ns[order[i]].Some?
    ensures |l| == |order|
    ensures forall i :: 0 <= i < |order| ==> l[i] == (ns[order[i]].value.key, ns[order[i]].value.value)
  {
    seq(|order|, i requires 0 <= i < |order| => (ns[order[i]].value.key, ns[order[i]].value.value))
  }

  // --------------------------------------------------- splicing on sequences

  ghost function CutAt(order: seq<nat>, p: nat): seq<nat>
    requires p < |order|
  {
    order[..p] + order[p + 1..]
  }

  function WithNext<K, V>(n: Option<Node<K, V>>, next: Option<nat>): Option<Node<K, V>> {
    if n.Some? then Some(n.value.(next := next)) else None
  }

  function WithPrev<K, V>(n: Option<Node<K, V>>, prev: Option<nat>): Option<Node<K, V>> {
    if n.Some? then Some(n.value.(prev := prev)) else None
  }

  /** `ms` is `ns` after the neighbours of `order[p]` were joined to each other. */
  ghost predicate Bypassed<K, V>(ns: Slots<K, V>, order: seq<nat>, p: nat, ms: Slots<K, V>)
    requires Linked(ns, order) && p < |order|
  {
    && |ms| == |ns|
    && var node := ns[order[p]].value;
    forall s :: 0 <= s < |ns| && s != order[p] ==>
      ms[s] == if node.prev == Some(s) then WithNext(ns[s], node.next)
               else if node.next == Some(s) then WithPrev(ns[s], node.prev)
               else ns[s]
  }

  lemma NeighboursOf<K, V>(ns: Slots<K, V>, order: seq<nat>, p: nat)
    requires Linked(ns, order) && p < |order|
    ensures ns[order[p]].value.prev == if p == 0 then None else Some(order[p - 1])
    ensures ns[order[p]].value.next == if p + 1 == |order| then None else Some(order[p + 1])
  {
    if p > 0 {
      assert ns[order[p - 1]].value.next == Some(order[p]);
    }
    if p + 1 < |order| {
      assert ns[order[p]].value.next == Some(order[p + 1]);
    }
  }

  /** What bypassing `order[p]` leaves at position `i` of the order. */
  lemma BypassedAt<K, V>(ns: Slots<K, V>, order: seq<nat>, p: nat, ms: Slots<K, V>, i: nat)
    requires Linked(ns, order) && p < |order| && Bypassed(ns, order, p, ms) && i < |order| && i != p
    ensures ms[order[i]].Some?
    ensures ms[order[i]].value.key == ns[order[i]].value.key
    ensures ms[order[i]].value.value == ns[order[i]].value.value
    ensures ms[order[i]].value.next == if i + 1 == p then ns[order[p]].value.next else ns[order[i]].value.next
    ensures ms[order[i]].value.prev == if i == p + 1 then ns[order[p]].value.prev else ns[order[i]].value.prev
  {
    NeighboursOf(ns, order, p);
  }

  /** The node at position `i` of the order without its `p`-th slot. */
  lemma CutNode<K, V>(ns: Slots<K, V>, order: seq<nat>, p: nat, ms: Slots<K, V>, i: nat)
    requires Linked(ns, order) && p < |order| && Bypassed(ns, order, p, ms) && i < |order| - 1
    ensures var cut := CutAt(order, p);
            && cut[i] < |ms| && ns[cut[i]].Some? && ms[cut[i]].Some?
            && ms[cut[i]].value.prev == (if i == 0 then None else Some(cut[i - 1]))
            && ms[cut[i]].value.next == (if i + 1 == |cut| then None else Some(cut[i + 1]))
            && ms[cut[i]].value.key == ns[cut[i]].value.key
            && ms[cut[i]].value.value == ns[cut[i]].value.value
  {
    var o := if i < p then i else i + 1;
    BypassedAt(ns, order, p, ms, o);
    NeighboursOf(ns, order, o);
    NeighboursOf(ns, order, p);
  }

  lemma BypassedLinked<K, V>(ns: Slots<K, V>, order: seq<nat>, p: nat, ms: Slots<K, V>)
    requires Linked(ns, order) && p < |order| && Bypassed(ns, order, p, ms)
    ensures Linked(ms, CutAt(order, p))
  {
    var cut := CutAt(order, p);
    CutNoRepeat(order, p);
    forall i | 0 <= i < |cut| ensures cut[i] < |ms| && ms[cut[i]].Some? {
      CutNode(ns, order, p, ms, i);
    }
    forall i, j | 0 <= i < j < |cut| && j <= i + 1
      ensures ms[cut[i]].value.next == Some(cut[j]) && ms[cut[j]].value.prev == Some(cut[i])
    {
      CutNode(ns, order, p, ms, i);
      CutNode(ns, order, p, ms, j);
    }
    if cut != [] {
      CutNode(ns, order, p, ms, 0);
      CutNode(ns, order, p, ms, |cut| - 1);
    }
  }

  lemma BypassedEntries<K, V>(ns: Slots<K, V>, order: seq<nat>, p: nat, ms: Slots<K, V>)
    requires Linked(ns, order) && p < |order| && Bypassed(ns, order, p, ms)
    requires Linked(ms, CutAt(order, p))
    ensures EntriesOf(ms, CutAt(order, p)) == Recency.Cut(EntriesOf(ns, order), p)
  {
    var cut, l := CutAt(order, p), EntriesOf(ns, order);
    var c := Recency.Cut(l, p);
    forall i | 0 <= i < |cut| ensures EntriesOf(ms, cut)[i] == c[i] {
      var o := if i < p then i else i + 1;
      assert cut[i] == order[o] && c[i] == l[o];
      BypassedAt(ns, order, p, ms, o);
    }
    assert |EntriesOf(ms, cut)| == |c|;
  }

  /** Cutting the first element and putting it back in front changes nothing. */
  lemma FrontAgain<T>(s: seq<T>)
    requires s != []
    ensures s == [s[0]] + (s[..0] + s[0 + 1..])
  {
  }

  lemma CutLast<T>(s: seq<T>)
    requires s != []
    ensures s[..|s| - 1] + s[|s| - 1 + 1..] == s[..|s| - 1]
  {
  }

  lemma CutNoRepeat(order: seq<nat>, p: nat)
    requires Recency.NoRepeat(order) && p < |order|
    ensures Recency.NoRepeat(CutAt(order, p)) && order[p] !in CutAt(order, p)
  {
    assert forall i :: 0 <= i < p ==> CutAt(order, p)[i] == order[i];
    assert forall i :: p <= i < |order| - 1 ==> CutAt(order, p)[i] == order[i + 1];
  }

  /** The two writes that join the neighbours of `node`. */
  ghost function Bypass<K, V>(ns: Slots<K, V>, node: Node<K, V>): Slots<K, V>
    requires node.prev.Some? ==> node.prev.value < |ns|
    requires node.next.Some? ==> node.next.value < |ns|
  {
    var a := if node.prev.Some? then ns[node.prev.value := WithNext(ns[node.prev.value], node.next)] else ns;
    if node.next.Some? then a[node.next.value := WithPrev(a[node.next.value], node.prev)] else a
  }

  /** The neighbours of `slot` are occupied and distinct from it and from each other. */
  ghost predicate Spliceable<K, V>(ns: Slots<K, V>, slot: nat) {
    && slot < |ns| && ns[slot].Some?
    && var node := ns[slot].value;
    && (node.prev.Some? ==> node.prev.value < |ns| && ns[node.prev.value].Some? && node.prev.value != slot)
    && (node.next.Some? ==> node.next.value < |ns| && ns[node.next.value].Some? && node.next.value != slot)
    && (node.prev.Some? ==> node.prev != node.next)
  }

  lemma BypassIsBypassed<K, V>(ns: Slots<K, V>, order: seq<nat>, p: nat, n: Option<Node<K, V>>)
    requires Linked(ns, order) && p < |order|
    ensures var slot, node := order[p], ns[order[p]].value;
            && Spliceable(ns, slot)
            && Bypassed(ns, order, p, Bypass(ns[slot := n], node))
            && Bypass(ns[slot := n], node)[slot] == n
  {
    NeighboursOf(ns, order, p);
  }

  /** `ms` is `ns` with a node for `slot` placed before the first of `order`. */
  ghost predicate Fronted<K, V>(ns: Slots<K, V>, order: seq<nat>, slot: nat, ms: Slots<K, V>)
    requires Linked(ns, order) && slot < |ns|
  {
    && |ms| == |ns|
    && ms[slot].Some?
    && ms[slot].value.prev == None
    && ms[slot].value.next == (if order == [] then None else Some(order[0]))
    && forall s :: 0 <= s < |ns| && s != slot ==>
         ms[s] == if order != [] && s == order[0] then WithPrev(ns[s], Some(slot)) else ns[s]
  }

  /** The writes that place `node` in `slot` and point the old head back at it. */
  ghost function Front<K, V>(ns: Slots<K, V>, slot: nat, node: Node<K, V>): Slots<K, V>
    requires slot < |ns| && (node.next.Some? ==> node.next.value < |ns|)
  {
    var a := ns[slot := Some(node)];
    if node.next.Some? then a[node.next.value := WithPrev(a[node.next.value], Some(slot))] else a
  }

  lemma FrontIsFronted<K, V>(
      ns: Slots<K, V>, order: seq<nat>, slot: nat, key: K, value: V, head: Option<nat>)
    requires Linked(ns, order) && slot < |ns| && slot !in order
    requires head == if order == [] then None else Some(order[0])
    ensures head.Some? ==> head.value < |ns| && ns[head.value].Some? && head.value != slot
    ensures var node := Node(key, value, None, head);
            Fronted(ns, order, slot, Front(ns, slot, node)) && Front(ns, slot, node)[slot] == Some(node)
  {
  }

  lemma FrontedLinked<K, V>(ns: Slots<K, V>, order: seq<nat>, slot: nat, ms: Slots<K, V>)
    requires Linked(ns, order) && slot < |ns| && slot !in order && Fronted(ns, order, slot, ms)
    ensures Linked(ms, [slot] + order)
  {
    var all := [slot] + order;
    forall i, j | 0 <= i < j < |all| ensures all[i] != all[j] {
      assert all[j] == order[j - 1];
    }
    forall i | 0 <= i < |all| ensures all[i] < |ms| && ms[all[i]].Some? {
      if i > 0 {
        assert all[i] == order[i - 1];
      }
    }
    forall i, j | 0 <= i < j < |all| && j <= i + 1
      ensures ms[all[i]].value.next == Some(all[j]) && ms[all[j]].value.prev == Some(all[i])
    {
      assert all[j] == order[i];
      NeighboursOf(ns, order, i);
      if i > 0 {
        assert all[i] == order[i - 1];
        NeighboursOf(ns, order, i - 1);
      }
    }
    if order != [] {
      assert all[|all| - 1] == order[|order| - 1];
    }
  }

  lemma FrontedEntries<K, V>(ns: Slots<K, V>, order: seq<nat>, slot: nat, ms: Slots<K, V>)
    requires Linked(ns, order) && slot < |ns| && slot !in order && Fronted(ns, order, slot, ms)
    requires Linked(ms, [slot] + order)
    ensures EntriesOf(ms, [slot] + order)
            == [(ms[slot].value.key, ms[slot].value.value)] + EntriesOf(ns, order)
  {
    var all, l := [slot] + order, EntriesOf(ns, order);
    forall i | 0 < i < |all| ensures EntriesOf(ms, all)[i] == l[i - 1] {
      assert all[i] == order[i - 1];
    }
  }

  // -------------------------------------- index and free list after a splice

  /** The invariant of the slots, the index and the free list together. */
  ghost predicate Rep<K, V>(ns: Slots<K, V>, order: seq<nat>, index: map<K, nat>, free: seq<nat>) {
    Linked(ns, order) && Indexed(ns, order, index) && Free(ns, order, free)
  }

  /** Slot `order[p]` was bypassed and emptied. */
  ghost predicate Emptied<K, V>(ns: Slots<K, V>, order: seq<nat>, p: nat, ms: Slots<K, V>)
    requires Linked(ns, order) && p < |order|
  {
    Bypassed(ns, order, p, ms) && ms[order[p]] == None
  }

  lemma CutMember(order: seq<nat>, p: nat, s: nat)
    requires Recency.NoRepeat(order) && p < |order|
    ensures s in CutAt(order, p) <==> s in order && s != order[p]
  {
    CutNoRepeat(order, p);
    if s in order && s != order[p] {
      var i :| 0 <= i < |order| && order[i] == s;
      assert CutAt(order, p)[if i < p then i else i - 1] == s;
    }
  }

  lemma EmptiedKeys<K, V>(ns: Slots<K, V>, order: seq<nat>, p: nat, ms: Slots<K, V>, s: nat)
    requires Linked(ns, order) && p < |order| && Emptied(ns, order, p, ms) && s < |ns| && s != order[p]
    ensures ms[s].Some? <==> ns[s].Some?
    ensures ns[s].Some? ==> ms[s].value.key == ns[s].value.key
  {
  }

  lemma EmptiedIndexed<K, V>(ns: Slots<K, V>, order: seq<nat>, p: nat, ms: Slots<K, V>, index: map<K, nat>)
    requires Linked(ns, order) && p < |order| && Emptied(ns, order, p, ms) && Indexed(ns, order, index)
    ensures Indexed(ms, CutAt(order, p), index - {ns[order[p]].value.key})
  {
    var key, slot := ns[order[p]].value.key, order[p];
    var rest := index - {key};
    assert rest.Keys == index.Keys - {key};
    assert |rest.Keys| == |index.Keys| - 1;
    forall s | 0 <= s < |ms| && ms[s].Some?
      ensures s in CutAt(order, p) && ms[s].value.key in rest && rest[ms[s].value.key] == s
    {
      EmptiedKeys(ns, order, p, ms, s);
      CutMember(order, p, s);
    }
    forall k | k in rest ensures rest[k] < |ms| && ms[rest[k]].Some? && ms[rest[k]].value.key == k {
      assert index[k] == rest[k] != slot;
      EmptiedKeys(ns, order, p, ms, rest[k]);
    }
  }

  lemma EmptiedFree<K, V>(ns: Slots<K, V>, order: seq<nat>, p: nat, ms: Slots<K, V>, free: seq<nat>)
    requires Linked(ns, order) && p < |order| && Emptied(ns, order, p, ms) && Free(ns, order, free)
    ensures Free(ms, CutAt(order, p), free + [order[p]])
  {
    NeighboursOf(ns, order, p);
    var free' := free + [order[p]];
    forall s | 0 <= s < |ms| && ms[s].None? ensures s in free' {
      if s != order[p] {
        assert ns[s].None?;
      }
    }
  }

  lemma FilledKeys<K, V>(ns: Slots<K, V>, order: seq<nat>, slot: nat, ms: Slots<K, V>, s: nat)
    requires Linked(ns, order) && slot < |ns| && Fronted(ns, order, slot, ms) && s < |ns| && s != slot
    ensures ms[s].Some? <==> ns[s].Some?
    ensures ns[s].Some? ==> ms[s].value.key == ns[s].value.key
  {
  }

  lemma FilledIndexed<K, V>(ns: Slots<K, V>, order: seq<nat>, slot: nat, ms: Slots<K, V>, index: map<K, nat>)
    requires Linked(ns, order) && slot < |ns| && ns[slot].None? && Fronted(ns, order, slot, ms)
    requires Indexed(ns, order, index) && ms[slot].value.key !in index
    ensures Indexed(ms, [slot] + order, index[ms[slot].value.key := slot])
  {
    var key, all := ms[slot].value.key, [slot] + order;
    var more := index[key := slot];
    assert more.Keys == index.Keys + {key};
    forall s | 0 <= s < |ms| && ms[s].Some?
      ensures s in all && ms[s].value.key in more && more[ms[s].value.key] == s
    {
      if s != slot {
        FilledKeys(ns, order, slot, ms, s);
        assert s in order;
      }
    }
    forall k | k in more ensures more[k] < |ms| && ms[more[k]].Some? && ms[more[k]].value.key == k {
      if k != key {
        FilledKeys(ns, order, slot, ms, index[k]);
      }
    }
  }

  lemma FilledFree<K, V>(ns: Slots<K, V>, order: seq<nat>, ms: Slots<K, V>, free: seq<nat>)
    requires Linked(ns, order) && Free(ns, order, free) && free != []
    requires Fronted(ns, order, free[|free| - 1], ms)
    ensures Free(ms, [free[|free| - 1]] + order, free[..|free| - 1])
  {
    var n := |free| - 1;
    assert free == free[..n] + [free[n]];
  }

  /** Bypassing a slot and then fronting it again keeps every slot's key and value. */
  ghost predicate SameEntries<K, V>(ns: Slots<K, V>, ms: Slots<K, V>) {
    && |ns| == |ms|
    && forall s :: 0 <= s < |ns| ==>
         (ns[s].Some? <==> ms[s].Some?) && (ns[s].Some? ==> ns[s].value.key == ms[s].value.key)
  }

  lemma MovedIndexedFree<K, V>(
      ns: Slots<K, V>, order: seq<nat>, p: nat, ms: Slots<K, V>, index: map<K, nat>, free: seq<nat>)
    requires Linked(ns, order) && p < |order| && SameEntries(ns, ms)
    requires Indexed(ns, order, index) && Free(ns, order, free)
    ensures Indexed(ms, [order[p]] + CutAt(order, p), index)
    ensures Free(ms, [order[p]] + CutAt(order, p), free)
  {
    forall s | 0 <= s < |ms| && ms[s].Some? ensures s in [order[p]] + CutAt(order, p) {
      CutMember(order, p, s);
    }
  }

  /** Taking slot `order[p]` out of the list and onto the free stack. */
  lemma EmptiedRep<K, V>(
      ns: Slots<K, V>, order: seq<nat>, p: nat, ms: Slots<K, V>, index: map<K, nat>, free: seq<nat>)
    requires Rep(ns, order, index, free) && p < |order| && Emptied(ns, order, p, ms)
    ensures Rep(ms, CutAt(order, p), index - {ns[order[p]].value.key}, free + [order[p]])
    ensures EntriesOf(ms, CutAt(order, p)) == Recency.Cut(EntriesOf(ns, order), p)
  {
    BypassedLinked(ns, order, p, ms);
    BypassedEntries(ns, order, p, ms);
    EmptiedIndexed(ns, order, p, ms, index);
    EmptiedFree(ns, order, p, ms, free);
  }

  /** Filling the top free slot and linking it before the head. */
  lemma FilledRep<K, V>(ns: Slots<K, V>, order: seq<nat>, ms: Slots<K, V>, index: map<K, nat>, free: seq<nat>)
    requires Rep(ns, order, index, free) && free != []
    requires Fronted(ns, order, free[|free| - 1], ms) && ms[free[|free| - 1]].value.key !in index
    ensures var slot := free[|free| - 1];
            && Rep(ms, [slot] + order, index[ms[slot].value.key := slot], free[..|free| - 1])
            && EntriesOf(ms, [slot] + order)
               == [(ms[slot].value.key, ms[slot].value.value)] + EntriesOf(ns, order)
  {
    var slot := free[|free| - 1];
    FrontedLinked(ns, order, slot, ms);
    FrontedEntries(ns, order, slot, ms);
    FilledIndexed(ns, order, slot, ms, index);
    FilledFree(ns, order, ms, free);
  }

  lemma BypassedSame<K, V>(ns: Slots<K, V>, order: seq<nat>, p: nat, ms: Slots<K, V>)
    requires Linked(ns, order) && p < |order| && Bypassed(ns, order, p, ms) && ms[order[p]] == ns[order[p]]
    ensures SameEntries(ns, ms)
  {
    NeighboursOf(ns, order, p);
  }

  lemma FrontedSame<K, V>(ns: Slots<K, V>, order: seq<nat>, slot: nat, ms: Slots<K, V>)
    requires Linked(ns, order) && slot < |ns| && Fronted(ns, order, slot, ms)
    requires ns[slot].Some? && ns[slot].value.key == ms[slot].value.key
    ensures SameEntries(ns, ms)
  {
  }

  /** Bypassing slot `order[p]` and linking it again before the head. */
  lemma MovedRep<K, V>(
      ns: Slots<K, V>, order: seq<nat>, p: nat, mid: Slots<K, V>, ms: Slots<K, V>,
      index: map<K, nat>, free: seq<nat>)
    requires Rep(ns, order, index, free) && p < |order|
    requires Bypassed(ns, order, p, mid) && mid[order[p]] == ns[order[p]]
    requires Linked(mid, CutAt(order, p)) && Fronted(mid, CutAt(order, p), order[p], ms)
    requires ms[order[p]].value.key == ns[order[p]].value.key
    requires ms[order[p]].value.value == ns[order[p]].value.value
    ensures Rep(ms, [order[p]] + CutAt(order, p), index, free)
    ensures EntriesOf(ms, [order[p]] + CutAt(order, p))
            == [EntriesOf(ns, order)[p]] + Recency.Cut(EntriesOf(ns, order), p)
  {
    var cut := CutAt(order, p);
    assert SameEntries(ns, ms) by {
      BypassedSame(ns, order, p, mid);
      FrontedSame(mid, cut, order[p], ms);
    }
    CutNoRepeat(order, p);
    BypassedEntries(ns, order, p, mid);
    FrontedLinked(mid, cut, order[p], ms);
    FrontedEntries(mid, cut, order[p], ms);
    MovedIndexedFree(ns, order, p, ms, index, free);
  }

  lemma MovedEnds<K, V>(ns: Slots<K, V>, ord: seq<nat>, h: Option<nat>, t: Option<nat>, p: nat)
    requires Linked(ns, ord) && Ends(ord, h, t) && 0 < p < |ord|
    ensures var node := ns[ord[p]].value;
            Ends([ord[p]] + CutAt(ord, p), Some(ord[p]), if node.next.Some? then t else node.prev)
  {
    NeighboursOf(ns, ord, p);
  }

  /** `move_to_front` of a slot that is not the head, on values. */
  lemma RelinkedRep<K, V>(
      ns: Slots<K, V>, ord: seq<nat>, index: map<K, nat>, free: seq<nat>, p: nat, ms: Slots<K, V>)
    requires Rep(ns, ord, index, free) && 0 < p < |ord|
    requires Spliceable(ns, ord[p])
    requires var node := ns[ord[p]].value;
             ms == Front(Bypass(ns[ord[p] := Some(node)], node), ord[p], node.(prev := None, next := Some(ord[0])))
    ensures Rep(ms, [ord[p]] + CutAt(ord, p), index, free)
    ensures EntriesOf(ms, [ord[p]] + CutAt(ord, p))
            == [EntriesOf(ns, ord)[p]] + Recency.Cut(EntriesOf(ns, ord), p)
  {
    var node, cut := ns[ord[p]].value, CutAt(ord, p);
    var mid := Bypass(ns[ord[p] := Some(node)], node);
    BypassIsBypassed(ns, ord, p, Some(node));
    BypassedLinked(ns, ord, p, mid);
    CutNoRepeat(ord, p);
    FrontIsFronted(mid, cut, ord[p], node.key, node.value, Some(ord[0]));
    MovedRep(ns, ord, p, mid, ms, index, free);
  }

  /** The slots after the value of one occupied slot was overwritten. */
  ghost function Overwrite<K, V>(ns: Slots<K, V>, slot: nat, value: V): Slots<K, V>
    requires slot < |ns| && ns[slot].Some?
  {
    ns[slot := Some(ns[slot].value.(value := value))]
  }

  lemma OverwriteLinked<K, V>(ns: Slots<K, V>, order: seq<nat>, p: nat, value: V)
    requires Linked(ns, order) && p < |order|
    ensures Linked(Overwrite(ns, order[p], value), order)
  {
  }

  lemma OverwriteEntries<K, V>(ns: Slots<K, V>, order: seq<nat>, p: nat, value: V)
    requires Linked(ns, order) && p < |order| && Linked(Overwrite(ns, order[p], value), order)
    ensures EntriesOf(Overwrite(ns, order[p], value), order)
            == EntriesOf(ns, order)[p := (ns[order[p]].value.key, value)]
  {
  }

  lemma OverwriteRep<K, V>(
      ns: Slots<K, V>, order: seq<nat>, p: nat, value: V, index: map<K, nat>, free: seq<nat>)
    requires Rep(ns, order, index, free) && p < |order|
    ensures Rep(Overwrite(ns, order[p], value), order, index, free)
    ensures EntriesOf(Overwrite(ns, order[p], value), order)
            == EntriesOf(ns, order)[p := (ns[order[p]].value.key, value)]
  {
    var ms := Overwrite(ns, order[p], value);
    OverwriteLinked(ns, order, p, value);
    OverwriteEntries(ns, order, p, value);
    assert Indexed(ms, order, index);
    assert Free(ms, order, free);
  }

  // ------------------------------------------------------------ link walking

  /** The first `n` slots met from `at` along the next-links. */
  ghost function WalkNext<K, V>(ns: Slots<K, V>, at: Option<nat>, n: nat): seq<nat>
    decreases n
  {
    if n == 0 || at.None? || at.value >= |ns| || ns[at.value].None? then []
    else [at.value] + WalkNext(ns, ns[at.value].value.next, n - 1)
  }

  /** The first `n` slots met from `at` along the prev-links. */
  ghost function WalkPrev<K, V>(ns: Slots<K, V>, at: Option<nat>, n: nat): seq<nat>
    decreases n
  {
    if n == 0 || at.None? || at.value >= |ns| || ns[at.value].None? then []
    else [at.value] + WalkPrev(ns, ns[at.value].value.prev, n - 1)
  }

  ghost function Reversed(s: seq<nat>): seq<nat> {
    if s == [] then [] else [s[|s| - 1]] + Reversed(s[..|s| - 1])
  }

  lemma {:induction false} WalkNextFrom<K, V>(ns: Slots<K, V>, order: seq<nat>, i: nat, n: nat)
    requires Linked(ns, order) && i < |order| && |order| - i <= n
    ensures WalkNext(ns, Some(order[i]), n) == order[i..]
    decreases |order| - i
  {
    NeighboursOf(ns, order, i);
    if i + 1 < |order| {
      WalkNextFrom(ns, order, i + 1, n - 1);
    }
  }

  lemma {:induction false} WalkPrevFrom<K, V>(ns: Slots<K, V>, order: seq<nat>, i: nat, n: nat)
    requires Linked(ns, order) && i < |order| && i + 1 <= n
    ensures WalkPrev(ns, Some(order[i]), n) == Reversed(order[..i + 1])
  {
    NeighboursOf(ns, order, i);
    assert order[..i + 1][..i] == order[..i];
    if i > 0 {
      WalkPrevFrom(ns, order, i - 1, n - 1);
    }
  }

  /**
   From the head the next-links visit exactly `order` and from the tail the
   prev-links visit it backwards, however far the walk is allowed to go.
   */
  lemma WalksAgree<K, V>(ns: Slots<K, V>, order: seq<nat>, head: Option<nat>, tail: Option<nat>, n: nat)
    requires Linked(ns, order) && Ends(order, head, tail) && |order| <= n
    ensures WalkNext(ns, head, n) == order
    ensures WalkPrev(ns, tail, n) == Reversed(order)
  {
    if order != [] {
      WalkNextFrom(ns, order, 0, n);
      WalkPrevFrom(ns, order, |order| - 1, n);
      assert order[..|order|] == order;
    }
  }

  // ----------------------------------------------------------------- the cache

  class LRUCache<K(==), V> {
    const nodes: array<Option<Node<K, V>>>
    var index: map<K, nat>
    var freeList: seq<nat>
    var head: Option<nat>
    var tail: Option<nat>
    ghost var order: seq<nat>

    ghost predicate Valid()
      reads this, nodes
    {
      && 0 < nodes.Length
      && Rep(nodes[..], order, index, freeList)
      && Ends(order, head, tail)
    }

    ghost function Contents(): Recency.Entries<K, V>
      requires Valid()
      reads this, nodes
    {
      EntriesOf(nodes[..], order)
    }

    /** The index answers for the recency list. */
    lemma IndexMeansHas(k: K)
      requires Valid()
      ensures k in index <==> Recency.Has(Contents(), k)
      ensures k in index ==> order[Recency.Find(Contents(), k)] == index[k]
    {
      var l := Contents();
      var f := Recency.Find(l, k);
      if k in index {
        var i :| 0 <= i < |order| && order[i] == index[k];
        assert l[i].0 == k;
      }
      if f < |l| {
        assert nodes[order[f]].value.key == k;
      }
    }

    /** The concrete invariant implies that of the recency list. */
    lemma ContentsWellFormed()
      requires Valid()
      ensures Recency.WellFormed(nodes.Length, Contents())
    {
      var l := Contents();
      forall i, j | 0 <= i < j < |l| ensures l[i].0 != l[j].0 {
        assert index[nodes[order[i]].value.key] == order[i];
        assert index[nodes[order[j]].value.key] == order[j];
      }
    }

    constructor (n: nat)
      requires 0 < n
      ensures Valid() && fresh(nodes) && nodes.Length == n && Contents() == []
    {
      nodes := new Option<Node<K, V>>[n](_ => None);
      index := map[];
      head, tail := None, None;
      freeList, order := [], [];
      new;
      var i := n;
      while i > 0
        invariant 0 <= i <= n && freeList == seq(n - i, j => n - 1 - j)
        invariant index == map[] && order == [] && head == None && tail == None
        invariant forall s :: 0 <= s < n ==> nodes[s] == None
      {
        i := i - 1;
        freeList := freeList + [i];
      }
      forall s | 0 <= s < n ensures s in freeList {
        assert freeList[n - 1 - s] == s;
      }
    }

    method Contains(key: K) returns (r: bool)
      requires Valid()
      ensures r == Recency.Has(Contents(), key)
    {
      IndexMeansHas(key);
      r := key in index;
    }

    /** The first slot of the order holds the most recent entry. */
    lemma FirstEntry()
      requires Valid() && order != []
      ensures order[0] < nodes.Length && nodes[order[0]].Some?
      ensures Contents()[0] == (nodes[order[0]].value.key, nodes[order[0]].value.value)
    {
    }

    method Get(key: K) returns (r: Option<V>)
      requires Valid()
      modifies this, nodes
      ensures Valid()
      ensures (Contents(), r) == Recency.Get(old(Contents()), key)
    {
      IndexMeansHas(key);
      if key !in index {
        return None;
      }
      var slot := index[key];
      MoveToFront(slot, Recency.Find(Contents(), key));
      FirstEntry();
      r := Some(nodes[slot].value.value);
    }

    /** An unchecked write of a link: the slot has to be occupied. */
    method SetNext(slot: nat, next: Option<nat>)
      requires slot < nodes.Length && nodes[slot].Some?
      modifies nodes
      ensures nodes[..] == old(nodes[..])[slot := WithNext(old(nodes[slot]), next)]
    {
      nodes[slot] := Some(nodes[slot].value.(next := next));
    }

    method SetPrev(slot: nat, prev: Option<nat>)
      requires slot < nodes.Length && nodes[slot].Some?
      modifies nodes
      ensures nodes[..] == old(nodes[..])[slot := WithPrev(old(nodes[slot]), prev)]
    {
      nodes[slot] := Some(nodes[slot].value.(prev := prev));
    }

    /** An unchecked read that empties an occupied slot. */
    method Take(slot: nat) returns (node: Node<K, V>)
      requires slot < nodes.Length && nodes[slot].Some?
      modifies nodes
      ensures node == old(nodes[slot]).value && nodes[..] == old(nodes[..])[slot := None]
    {
      node := nodes[slot].value;
      nodes[slot] := None;
    }

    method Fill(slot: nat, node: Node<K, V>)
      requires slot < nodes.Length
      modifies nodes
      ensures nodes[..] == old(nodes[..])[slot := Some(node)]
    {
      nodes[slot] := Some(node);
    }

    /** What the links of the `p`-th slot say before it is spliced out. */
    lemma SpliceReady(p: nat)
      requires Valid() && p < |order|
      ensures order[p] < nodes.Length && nodes[order[p]].Some?
      ensures Spliceable(nodes[..], order[p])
      ensures Contents()[p] == (nodes[order[p]].value.key, nodes[order[p]].value.value)
      ensures nodes[order[p]].value.prev == if p == 0 then None else Some(order[p - 1])
      ensures nodes[order[p]].value.next == if p + 1 == |order| then None else Some(order[p + 1])
    {
      NeighboursOf(nodes[..], order, p);
      BypassIsBypassed(nodes[..], order, p, None);
    }

    /** Slot `ord[p]` was spliced out: the invariant holds of the shorter order. */
    lemma SplicedValid(
        ns: Slots<K, V>, ord: seq<nat>, idx: map<K, nat>, free: seq<nat>, h: Option<nat>, t: Option<nat>, p: nat)
      requires 0 < |ns| && Rep(ns, ord, idx, free) && Ends(ord, h, t) && p < |ord|
      requires Spliceable(ns, ord[p])
      requires nodes[..] == Bypass(ns[ord[p] := None], ns[ord[p]].value)
      requires head == if ns[ord[p]].value.prev.Some? then h else ns[ord[p]].value.next
      requires tail == if ns[ord[p]].value.next.Some? then t else ns[ord[p]].value.prev
      requires order == CutAt(ord, p)
      requires index == idx - {ns[ord[p]].value.key} && freeList == free + [ord[p]]
      ensures Valid() && Contents() == Recency.Cut(EntriesOf(ns, ord), p)
    {
      assert Ends(order, head, tail) by {
        NeighboursOf(ns, ord, p);
      }
      BypassIsBypassed(ns, ord, p, None);
      EmptiedRep(ns, ord, p, nodes[..], idx, free);
    }

    /** The link surgery of `pop`. */
    method Unlink(slot: nat) returns (node: Node<K, V>)
      requires Spliceable(nodes[..], slot)
      modifies nodes, `head, `tail, `freeList
      ensures node == old(nodes[slot]).value
      ensures nodes[..] == Bypass(old(nodes[..])[slot := None], node)
      ensures head == if node.prev.Some? then old(head) else node.next
      ensures tail == if node.next.Some? then old(tail) else node.prev
      ensures freeList == old(freeList) + [slot]
    {
      node := Take(slot);
      if node.prev.Some? {
        SetNext(node.prev.value, node.next);
      } else {
        head := node.next;
      }
      if node.next.Some? {
        SetPrev(node.next.value, node.prev);
      } else {
        tail := node.prev;
      }
      freeList := freeList + [slot];
    }

    method Pop(key: K) returns (r: Option<(K, V)>)
      requires Valid()
      modifies this, nodes
      ensures Valid()
      ensures (Contents(), r) == Recency.Pop(old(Contents()), key)
    {
      IndexMeansHas(key);
      if key in index {
        r := Remove(key, Recency.Find(Contents(), key));
      } else {
        r := None;
      }
    }

    /** The body of `pop` for a resident key. */
    method Remove(key: K, ghost p: nat) returns (r: Option<(K, V)>)
      requires Valid() && key in index && p < |order| && index[key] == order[p] && Contents()[p].0 == key
      modifies this, nodes
      ensures Valid() && Contents() == Recency.Cut(old(Contents()), p)
      ensures r == Some(old(Contents())[p])
    {
      hide Rep;
      SpliceReady(p);
      var slot := index[key];
      index := index - {key};
      var node := Unlink(slot);
      r := Some((node.key, node.value));
      order := CutAt(order, p);
      SplicedValid(old(nodes[..]), old(order), old(index), old(freeList), old(head), old(tail), p);
    }

    /** The branch of `put` for a resident key. */
    method Refresh(key: K, value: V, ghost p: nat)
      requires Valid() && key in index && p < |order| && index[key] == order[p] && Contents()[p].0 == key
      modifies this, nodes
      ensures Valid() && Contents() == [(key, value)] + Recency.Cut(old(Contents()), p)
    {
      ghost var l := Contents();
      SetValue(index[key], value, p);
      MoveToFront(index[key], p);
      assert Recency.Cut(l[p := (key, value)], p) == Recency.Cut(l, p);
    }

    method Put(key: K, value: V) returns (evicted: Option<(K, V)>, duplicate: bool)
      requires Valid()
      modifies this, nodes
      ensures Valid()
      ensures Recency.PutResult(Contents(), evicted, duplicate)
              == Recency.Put(nodes.Length, old(Contents()), key, value)
    {
      IndexMeansHas(key);
      if key in index {
        Refresh(key, value, Recency.Find(Contents(), key));
        return None, true;
      }
      evicted := None;
      if |index| == nodes.Length {
        evicted := Evict();
      }
      InsertFront(key, value);
      duplicate := false;
    }

    /** Overwriting the value of one resident slot. */
    method SetValue(slot: nat, value: V, ghost p: nat)
      requires Valid() && p < |order| && order[p] == slot
      modifies nodes
      ensures Valid() && Contents() == old(Contents())[p := (old(Contents())[p].0, value)]
    {
      ghost var ns := nodes[..];
      nodes[slot] := Some(nodes[slot].value.(value := value));
      assert nodes[..] == Overwrite(ns, slot, value);
      OverwriteRep(ns, order, p, value, index, freeList);
    }

    /** The writes of `put` for a new key: take a free slot and link it before the head. */
    method LinkFree(key: K, value: V) returns (slot: nat)
      requires freeList != [] && freeList[|freeList| - 1] < nodes.Length
      requires head.Some? ==>
                 head.value < nodes.Length && nodes[head.value].Some? && head.value != freeList[|freeList| - 1]
      modifies this, nodes
      ensures order == old(order)
      ensures slot == old(freeList[|freeList| - 1]) && freeList == old(freeList[..|freeList| - 1])
      ensures nodes[..] == Front(old(nodes[..]), slot, Node(key, value, None, old(head)))
      ensures head == Some(slot) && tail == if old(tail).None? then Some(slot) else old(tail)
      ensures index == old(index)[key := slot]
    {
      var n := |freeList| - 1;
      slot := freeList[n];
      freeList := freeList[..n];
      Fill(slot, Node(key, value, None, head));
      if head.Some? {
        SetPrev(head.value, Some(slot));
      }
      head := Some(slot);
      if tail.None? {
        tail := Some(slot);
      }
      index := index[key := slot];
    }

    lemma LinkReady(key: K, value: V)
      requires Valid() && |order| < nodes.Length
      ensures freeList != []
      ensures var slot := freeList[|freeList| - 1];
              && slot < nodes.Length && slot !in order
              && (head.Some? ==> head.value < nodes.Length && nodes[head.value].Some? && head.value != slot)
    {
      var slot := freeList[|freeList| - 1];
      FrontIsFronted(nodes[..], order, slot, key, value, head);
    }

    lemma LinkedValid(
        ns: Slots<K, V>, ord: seq<nat>, idx: map<K, nat>, free: seq<nat>, oldHead: Option<nat>, key: K, value: V)
      requires 0 < |ns| && Rep(ns, ord, idx, free) && free != [] && key !in idx
      requires oldHead == if ord == [] then None else Some(ord[0])
      requires var slot := free[|free| - 1];
               && nodes[..] == Front(ns, slot, Node(key, value, None, oldHead))
               && order == [slot] + ord && index == idx[key := slot]
      requires freeList == free[..|free| - 1] && Ends(order, head, tail)
      ensures Valid() && Contents() == [(key, value)] + EntriesOf(ns, ord)
    {
      FrontIsFronted(ns, ord, free[|free| - 1], key, value, oldHead);
      FilledRep(ns, ord, nodes[..], idx, free);
    }

    method InsertFront(key: K, value: V)
      requires Valid() && |order| < nodes.Length && key !in index
      modifies this, nodes
      ensures Valid() && Contents() == [(key, value)] + old(Contents())
    {
      LinkReady(key, value);
      var slot := LinkFree(key, value);
      order := [slot] + order;
      LinkedValid(old(nodes[..]), old(order), old(index), old(freeList), old(head), key, value);
    }

    /** The link surgery of `move_to_front` for a slot that is not the head. */
    method Relink(slot: nat)
      requires Spliceable(nodes[..], slot) && head.Some? && head.value < nodes.Length && nodes[head.value].Some?
      requires head.value != slot && nodes[slot].value.prev.Some?
      modifies nodes, `head, `tail
      ensures var node := old(nodes[slot]).value;
              && nodes[..] == Front(Bypass(old(nodes[..])[slot := Some(node)], node), slot,
                                    node.(prev := None, next := old(head)))
              && head == Some(slot)
              && tail == if node.next.Some? then old(tail) else node.prev
    {
      var prev, next := nodes[slot].value.prev, nodes[slot].value.next;
      if prev.Some? {
        SetNext(prev.value, next);
      }
      if next.Some? {
        SetPrev(next.value, prev);
      } else {
        tail := prev;
      }
      SetPrev(slot, None);
      SetNext(slot, head);
      if head.Some? {
        SetPrev(head.value, Some(slot));
      }
      head := Some(slot);
    }

    lemma RelinkedValid(ns: Slots<K, V>, ord: seq<nat>, h: Option<nat>, t: Option<nat>, p: nat)
      requires 0 < |ns| && Rep(ns, ord, index, freeList) && Ends(ord, h, t) && 0 < p < |ord|
      requires Spliceable(ns, ord[p])
      requires var node := ns[ord[p]].value;
               && nodes[..] == Front(Bypass(ns[ord[p] := Some(node)], node), ord[p], node.(prev := None, next := h))
               && head == Some(ord[p])
               && tail == if node.next.Some? then t else node.prev
      requires order == [ord[p]] + CutAt(ord, p)
      ensures Valid()
      ensures Contents() == [EntriesOf(ns, ord)[p]] + Recency.Cut(EntriesOf(ns, ord), p)
    {
      MovedEnds(ns, ord, h, t, p);
      RelinkedRep(ns, ord, index, freeList, p, nodes[..]);
    }

    /** The head is the first slot of the order and no other. */
    lemma HeadIsFirst(p: nat)
      requires Valid() && p < |order|
      ensures head == Some(order[0]) && order[0] < nodes.Length && nodes[order[0]].Some?
      ensures head == Some(order[p]) <==> p == 0
    {
    }

    method MoveToFront(slot: nat, ghost p: nat)
      requires Valid() && p < |order| && order[p] == slot
      modifies this, nodes
      ensures Valid()
      ensures order == [slot] + CutAt(old(order), p)
      ensures Contents() == [old(Contents())[p]] + Recency.Cut(old(Contents()), p)
    {
      hide Rep;
      HeadIsFirst(p);
      if Some(slot) == head {
        FrontAgain(order);
        FrontAgain(Contents());
        return;
      }
      SpliceReady(p);
      Relink(slot);
      order := [slot] + CutAt(order, p);
      RelinkedValid(old(nodes[..]), old(order), old(head), old(tail), p);
    }

    /** The link surgery of `evict`. */
    method UnlinkTail() returns (node: Node<K, V>)
      requires tail.Some? && Spliceable(nodes[..], tail.value) && nodes[tail.value].value.next.None?
      modifies this, nodes
      ensures order == old(order)
      ensures node == old(nodes[tail.value]).value
      ensures nodes[..] == Bypass(old(nodes[..])[old(tail.value) := None], node)
      ensures index == old(index) - {node.key} && freeList == old(freeList) + [old(tail.value)]
      ensures tail == node.prev && head == if node.prev.Some? then old(head) else None
    {
      var slot := tail.value;
      node := Take(slot);
      index := index - {node.key};
      tail := node.prev;
      if tail.Some? {
        SetNext(tail.value, None);
      } else {
        head := None;
      }
      freeList := freeList + [slot];
    }

    method Evict() returns (r: Option<(K, V)>)
      requires Valid()
      modifies this, nodes
      ensures Valid()
      ensures old(order) == [] ==> r == None && Contents() == old(Contents())
      ensures old(order) != [] ==>
                var l := old(Contents());
                r == Some(l[|l| - 1]) && Contents() == l[..|l| - 1] && index == old(index) - {l[|l| - 1].0}
    {
      hide Rep;
      if tail.None? {
        return None;
      }
      ghost var p := |order| - 1;
      SpliceReady(p);
      CutLast(Contents());
      var node := UnlinkTail();
      r := Some((node.key, node.value));
      order := CutAt(order, p);
      SplicedValid(old(nodes[..]), old(order), old(index), old(freeList), old(head), old(tail), p);
    }
  }
}
