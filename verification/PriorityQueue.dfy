/**
 The bounded queue of `minmax/src/lib.rs` and its draining by the transmitter
 of `qos-core/src/banking.rs`, first as relations on multisets ordered by score
 alone with ties broken arbitrarily, then as the objects that realise them.
 */
module PriorityQueue {
  import opened Wrappers
  import opened Packets

  type Heap = multiset<Scored>

  ghost predicate IsMin(h: Heap, x: Scored) {
    x in h && forall y :: y in h ==> x.score <= y.score
  }

  ghost predicate IsMax(h: Heap, x: Scored) {
    x in h && forall y :: y in h ==> y.score <= x.score
  }

  // ------------------------------------------------------------------ pushing

  /** Pushing `x` into a heap of capacity `n`: reaching `n` entries evicts a minimal one. */
  ghost predicate Pushed(n: nat, h: Heap, x: Scored, h': Heap, leaked: Option<Scored>) {
    var all := h + multiset{x};
    if |all| == n then leaked.Some? && IsMin(all, leaked.value) && h' == all - multiset{leaked.value}
    else leaked == None && h' == all
  }

  /** `h` is a best choice of `n` entries from `all`. */
  ghost predicate IsTop(h: Heap, all: Heap, n: nat) {
    && h <= all
    && |h| == (if |all| <= n then |all| else n)
    && forall x, y :: x in h && y in all - h ==> y.score <= x.score
  }

  lemma RemoveCards(all: Heap, x: Scored)
    requires x in all
    ensures |all - multiset{x}| == |all| - 1
  {
    assert all == all - multiset{x} + multiset{x};
  }

  lemma TopAfterPush(n: nat, h: Heap, all: Heap, x: Scored, h': Heap, leaked: Option<Scored>)
    requires n > 0 && IsTop(h, all, n - 1) && Pushed(n, h, x, h', leaked)
    ensures IsTop(h', all + multiset{x}, n - 1)
  {
    var more := all + multiset{x};
    if leaked.Some? {
      var grown := h + multiset{x};
      RemoveCards(grown, leaked.value);
      assert more - h' == all - h + multiset{leaked.value};
      forall a, b | a in h' && b in more - h' ensures b.score <= a.score {
        if b != leaked.value {
          assert b in all - h;
          if a !in h {
            assert a == x;
            LeastBelow(n - 1, h, all, x, leaked.value, b);
          }
        }
      }
    } else {
      assert h == all by {
        TopIsAll(h, all, n - 1);
      }
    }
  }

  /** What was left out before is below the entry evicted now. */
  lemma LeastBelow(n: nat, h: Heap, all: Heap, x: Scored, leaked: Scored, b: Scored)
    requires IsTop(h, all, n) && b in all - h && leaked in h + multiset{x} && |h| == n
    requires IsMin(h + multiset{x}, leaked) && leaked != x
    ensures b.score <= x.score
  {
    assert leaked in h;
    assert x in h + multiset{x};
  }

  lemma TopIsAll(h: Heap, all: Heap, n: nat)
    requires IsTop(h, all, n) && |h| < n
    ensures h == all
  {
    assert all == h + (all - h);
    assert |all| == |h| + |all - h|;
  }

  /** The heaps met while pushing `xs` from empty, and what each push evicted. */
  ghost predicate PushRun(n: nat, xs: seq<Scored>, hs: seq<Heap>, leaks: seq<Option<Scored>>) {
    && |hs| == |xs| + 1 == |leaks| + 1
    && hs[0] == multiset{}
    && forall i, j :: 0 <= i < j < |hs| && j <= i + 1 ==> Pushed(n, hs[i], xs[i], hs[j], leaks[i])
  }

  /** After any run of pushes from empty the heap keeps the n - 1 best of everything pushed. */
  lemma {:induction false} KeepsBest(n: nat, xs: seq<Scored>, hs: seq<Heap>, leaks: seq<Option<Scored>>)
    requires n > 0 && PushRun(n, xs, hs, leaks)
    ensures IsTop(hs[|xs|], multiset(xs), n - 1)
  {
    if xs != [] {
      var m := |xs| - 1;
      KeepsBest(n, xs[..m], hs[..m + 1], leaks[..m]);
      assert xs == xs[..m] + [xs[m]];
      TopAfterPush(n, hs[m], multiset(xs[..m]), xs[m], hs[m + 1], leaks[m]);
    }
  }

  // ----------------------------------------------------------------- draining

  ghost predicate Descending(s: seq<Scored>) {
    forall i, j :: 0 <= i < j < |s| ==> s[j].score <= s[i].score
  }

  /** Everything in `popped` is at least as good as everything in `rest`. */
  ghost predicate Dominates(popped: Heap, rest: Heap) {
    forall x, y :: x in popped && y in rest ==> y.score <= x.score
  }

  /** The part of a transmission that has happened after some pops from heap `h`. */
  ghost predicate Draining(
      h: Heap, recent: set<nat>, maxSend: nat, sent: seq<Scored>, dropped: Heap, rest: Heap) {
    && h == multiset(sent) + dropped + rest
    && (forall i :: 0 <= i < |sent| ==> sent[i].sigKey !in recent)
    && (forall x :: x in dropped ==> x.sigKey in recent)
    && |sent| <= maxSend
    && (maxSend == 0 ==> rest == h)
    && Descending(sent)
    && Dominates(multiset(sent) + dropped, rest)
    && (0 < maxSend == |sent| ==> forall x :: x in dropped ==> sent[maxSend - 1].score <= x.score)
  }

  /**
   A transmission from heap `h`: `sent` in this order, `dropped` because their
   signatures are among `recent`, `rest` left in the heap.
   */
  ghost predicate Drained(
      h: Heap, recent: set<nat>, maxSend: nat, sent: seq<Scored>, dropped: Heap, rest: Heap) {
    Draining(h, recent, maxSend, sent, dropped, rest) && (|sent| < maxSend ==> rest == multiset{})
  }

  lemma DrainStart(h: Heap, recent: set<nat>, maxSend: nat)
    ensures Draining(h, recent, maxSend, [], multiset{}, h)
  {
  }

  lemma DrainSend(
      h: Heap, recent: set<nat>, maxSend: nat, sent: seq<Scored>, dropped: Heap, rest: Heap, x: Scored)
    requires Draining(h, recent, maxSend, sent, dropped, rest) && |sent| < maxSend
    requires IsMax(rest, x) && x.sigKey !in recent
    ensures Draining(h, recent, maxSend, sent + [x], dropped, rest - multiset{x})
  {
    assert forall i :: 0 <= i < |sent| ==> sent[i] in multiset(sent) + dropped;
    assert multiset(sent + [x]) == multiset(sent) + multiset{x};
  }

  lemma DrainDrop(
      h: Heap, recent: set<nat>, maxSend: nat, sent: seq<Scored>, dropped: Heap, rest: Heap, x: Scored)
    requires Draining(h, recent, maxSend, sent, dropped, rest) && |sent| < maxSend
    requires IsMax(rest, x) && x.sigKey in recent
    ensures Draining(h, recent, maxSend, sent, dropped + multiset{x}, rest - multiset{x})
  {
  }

  /**
   What was sent is exactly the best `maxSend` of the entries that are not
   recent: any other one exists only if `maxSend` were sent, and outranks none.
   */
  lemma SendsBestFresh(
      h: Heap, recent: set<nat>, maxSend: nat, sent: seq<Scored>, dropped: Heap, rest: Heap, y: Scored)
    requires Drained(h, recent, maxSend, sent, dropped, rest)
    requires y.sigKey !in recent && h[y] > multiset(sent)[y]
    ensures |sent| == maxSend && forall x :: x in sent ==> y.score <= x.score
  {
    assert y in rest;
  }

  /**
   Queue and drain together: no pushed entry that is not recent and was not
   sent outranks anything sent, although the queue keeps only n - 1 entries.
   */
  lemma SendsBestOfAllPushed(
      n: nat, xs: seq<Scored>, hs: seq<Heap>, leaks: seq<Option<Scored>>,
      recent: set<nat>, maxSend: nat, sent: seq<Scored>, dropped: Heap, rest: Heap, y: Scored)
    requires n > 0 && PushRun(n, xs, hs, leaks)
    requires Drained(hs[|xs|], recent, maxSend, sent, dropped, rest)
    requires y.sigKey !in recent && multiset(xs)[y] > multiset(sent)[y]
    ensures Descending(sent) && forall x :: x in sent ==> y.score <= x.score
  {
    KeepsBest(n, xs, hs, leaks);
    var h := hs[|xs|];
    if h[y] > multiset(sent)[y] {
      SendsBestFresh(h, recent, maxSend, sent, dropped, rest, y);
    } else {
      assert y in multiset(xs) - h;
      assert forall x :: x in sent ==> x in h;
    }
  }

  /** The entries whose signatures are not recent. */
  ghost function FreshPart(h: Heap, recent: set<nat>): (f: Heap)
    ensures forall y :: f[y] == if y.sigKey in recent then 0 else h[y]
    decreases |h|
  {
    if |h| == 0 then multiset{}
    else
      var x :| x in h;
      RemoveCards(h, x);
      var rest := FreshPart(h - multiset{x}, recent);
      if x.sigKey in recent then rest else rest + multiset{x}
  }

  /** A transmission sends as many entries that are not recent as there are, up to the limit, and loses none of them. */
  lemma SendsFresh(h: Heap, recent: set<nat>, maxSend: nat, sent: seq<Scored>, dropped: Heap, rest: Heap)
    requires Drained(h, recent, maxSend, sent, dropped, rest)
    ensures FreshPart(h, recent) == multiset(sent) + FreshPart(rest, recent)
    ensures |sent| == if |FreshPart(h, recent)| < maxSend then |FreshPart(h, recent)| else maxSend
  {
    var f, left := FreshPart(h, recent), FreshPart(rest, recent);
    forall y ensures f[y] == (multiset(sent) + left)[y] {
      if y in multiset(sent) {
        assert y in sent;
      }
    }
    assert f == multiset(sent) + left;
    assert |multiset(sent)| == |sent|;
    if |sent| < maxSend {
      assert left == multiset{};
    }
  }

  // --------------------------------------------------------------- the object

  /** The entries of a heap are `x` and those of the heap without it. */
  lemma MembersBut(h: Heap, x: Scored, y: Scored)
    requires x in h && y in h
    ensures y == x || y in h - multiset{x}
  {
  }

  ghost function MaxOf(h: Heap): (x: Scored)
    requires h != multiset{}
    ensures IsMax(h, x)
    decreases |h|
  {
    var x :| x in h;
    var rest := h - multiset{x};
    RemoveCards(h, x);
    assert forall y :: y in h ==> y == x || y in rest by {
      forall y | y in h ensures y == x || y in rest { MembersBut(h, x, y); }
    }
    if |rest| == 0 then x
    else
      var m := MaxOf(rest);
      if m.score < x.score then x else m
  }

  ghost function MinOf(h: Heap): (x: Scored)
    requires h != multiset{}
    ensures IsMin(h, x)
    decreases |h|
  {
    var x :| x in h;
    var rest := h - multiset{x};
    RemoveCards(h, x);
    assert forall y :: y in h ==> y == x || y in rest by {
      forall y | y in h ensures y == x || y in rest { MembersBut(h, x, y); }
    }
    if |rest| == 0 then x
    else
      var m := MinOf(rest);
      if x.score < m.score then x else m
  }

  class MinMaxHeap {
    const capacity: nat
    var inner: Heap

    ghost predicate Valid()
      reads this
    {
      |inner| < capacity
    }

    constructor (capacity: nat)
      requires 0 < capacity
      ensures Valid() && this.capacity == capacity && inner == multiset{}
    {
      this.capacity := capacity;
      inner := multiset{};
    }

    method Push(value: Scored) returns (min: Option<Scored>)
      requires Valid()
      modifies this
      ensures Valid() && Pushed(capacity, old(inner), value, inner, min)
    {
      min := None;
      inner := inner + multiset{value};
      if |inner| == capacity {
        ghost var least := MinOf(inner);
        var m :| m in inner && forall y :: y in inner ==> m.score <= y.score;
        RemoveCards(inner, m);
        min := Some(m);
        inner := inner - multiset{m};
      }
    }

    /** The next value of the descending iterator. */
    method PopMax() returns (max: Option<Scored>)
      requires Valid()
      modifies this
      ensures Valid()
      ensures if old(inner) == multiset{} then max == None && inner == multiset{}
              else max.Some? && IsMax(old(inner), max.value) && inner == old(inner) - multiset{max.value}
    {
      if inner == multiset{} {
        return None;
      }
      ghost var greatest := MaxOf(inner);
      var m :| m in inner && forall y :: y in inner ==> y.score <= m.score;
      RemoveCards(inner, m);
      max := Some(m);
      inner := inner - multiset{m};
    }
  }
}
