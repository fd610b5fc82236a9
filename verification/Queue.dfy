/** The circular queue: relinking, the middle element, and sorting in place. */
module LinkedQueue {
  import opened QueueRing
  import opened QueueSort

  /** A queue is its sentinel; `nodes` are the links that may be in it, and the sentinel. */
  class Queue {
    const h: Link
    ghost const nodes: set<Link>

    ghost predicate Holds(xs: seq<Link>)
      reads nodes
    {
      Ring(Links(nodes), h, xs)
    }

    constructor (h: Link, ghost others: set<Link>)
      requires h.prev == h && h.next == h
      ensures this.h == h && nodes == {h} + others && Holds([])
    {
      this.h, this.nodes := h, {h} + others;
      new;
      assert Linked(Links(nodes), h, [], 0);
    }

    lemma CellOf(x: Link)
      requires x in nodes
      ensures x in Links(nodes) && Links(nodes)[x] == Cell(x.prev, x.next)
    {
    }

    method Remove(x: Link, ghost xs: seq<Link>, ghost k: nat)
      requires Holds(xs) && k < |xs| && x == xs[k]
      modifies nodes
      ensures Holds(Without(xs, k))
    {
      RemoveRing(Links(nodes), h, xs, k);
      CellOf(x);
      ghost var s := Links(nodes);
      Neighbours(s, h, xs, k);
      AtApart(h, xs, k, k + 1);
      x.next.prev := x.prev;
      assert Links(nodes) == SetPrev(s, s[x].next, s[x].prev);
      x.prev.next := x.next;
      assert Links(nodes) == Removed(s, x);
    }

    method InsertAfter(a: Link, x: Link, ghost xs: seq<Link>, ghost k: nat)
      requires Holds(xs) && k <= |xs| && a == At(h, xs, k) && x in nodes && x != h && x !in xs
      modifies nodes
      ensures Holds(With(xs, k, x))
    {
      InsertRing(Links(nodes), h, xs, k, x);
      CellOf(a);
      var b := a.next;
      PutNext(x, b);
      PutPrev(b, x);
      PutPrev(x, a);
      PutNext(a, x);
    }

    method PutNext(x: Link, v: Link)
      requires x in nodes
      modifies nodes`next
      ensures Links(nodes) == SetNext(old(Links(nodes)), x, v)
    {
      x.next := v;
    }

    method PutPrev(x: Link, v: Link)
      requires x in nodes
      modifies nodes`prev
      ensures Links(nodes) == SetPrev(old(Links(nodes)), x, v)
    {
      x.prev := v;
    }

    /** The element with as many before it as after it, or one more before it. */
    method Middle(ghost xs: seq<Link>) returns (middle: Link)
      requires Holds(xs)
      ensures middle == if xs == [] then h else xs[|xs| / 2]
    {
      StepOn(Links(nodes), h, xs, 0);
      CellOf(h);
      middle := h.next;
      if middle == h.prev { return; }
      var next := h.next;
      ghost var m := 0;
      while true
        invariant 0 <= 2 * m + 1 < |xs| && middle == xs[m] && next == xs[2 * m]
        decreases |xs| - m
      {
        StepOn(Links(nodes), h, xs, m + 1);
        StepOn(Links(nodes), h, xs, 2 * m + 1);
        StepOn(Links(nodes), h, xs, 2 * m + 2);
        CellOf(middle);
        CellOf(next);
        m := m + 1;
        middle := middle.next;
        next := next.next;
        if next == h.prev { return; }
        CellOf(next);
        next := next.next;
        if next == h.prev { return; }
      }
    }

    /** Going back from the end of the sorted elements `ys`: behind which one `q` belongs. */
    method FindPlace(cmp: (Link, Link) -> int, q: Link, last: Link, ghost ys: seq<Link>, ghost zs: seq<Link>)
        returns (prev: Link, ghost k: nat)
      requires Holds(ys + zs) && ys != [] && last == ys[|ys| - 1]
      ensures k == Position(cmp, ys, q) && k <= |ys| && prev == At(h, ys + zs, k)
    {
      k := |ys|;
      prev := last;
      assert ys[..k] == ys;
      while prev != h
        invariant k <= |ys| && prev == At(h, ys + zs, k) && Position(cmp, ys, q) == Position(cmp, ys[..k], q)
        decreases k
      {
        if k > 0 { assert ys[..k][..k - 1] == ys[..k - 1] && prev == ys[k - 1]; }
        if cmp(prev, q) <= 0 { return; }
        StepOn(Links(nodes), h, ys + zs, k);
        CellOf(prev);
        prev := prev.prev;
        k := k - 1;
      }
      AtHead(ys, zs, k);
    }

    lemma AtHead(ys: seq<Link>, zs: seq<Link>, k: nat)
      requires Distinct(h, ys + zs) && k <= |ys| && At(h, ys + zs, k) == h
      ensures k == 0
    {
      var xs := ys + zs;
      assert forall i :: 0 <= i < |xs| ==> xs[i] in xs && xs[i] != h;
    }

    /** One element, the first behind the sorted ones, is moved to its place. */
    method SortOne(cmp: (Link, Link) -> int, q: Link, ghost ys: seq<Link>, ghost rest: seq<Link>) returns (next: Link)
      requires Holds(ys + [q] + rest) && ys != []
      modifies nodes
      ensures Holds(With(ys, Position(cmp, ys, q), q) + rest) && next == if rest == [] then h else rest[0]
    {
      ghost var xs, i := ys + [q] + rest, |ys|;
      Neighbours(Links(nodes), h, xs, i);
      CellOf(q);
      var prev := q.prev;
      next := q.next;
      RemovedQueue(ys, q, rest);
      Remove(q, xs, i);
      ghost var k;
      prev, k := FindPlace(cmp, q, prev, ys, rest);
      InsertAfter(prev, q, ys + rest, k);
      assert With(ys + rest, k, q) == With(ys, k, q) + rest;
    }

    lemma RemovedQueue(ys: seq<Link>, q: Link, rest: seq<Link>)
      requires Distinct(h, ys + [q] + rest)
      ensures Without(ys + [q] + rest, |ys|) == ys + rest && q !in ys + rest && q != h
    {
      var xs := ys + [q] + rest;
      assert xs[|ys|] == q && q in xs;
      assert forall i :: 0 <= i < |ys| ==> xs[i] == ys[i];
      assert forall i :: 0 <= i < |rest| ==> xs[|ys| + 1 + i] == rest[i];
    }

    /** The queue is sorted in place, and stably, if `cmp` orders its elements. */
    method SortQueue(cmp: (Link, Link) -> int, ghost xs: seq<Link>) returns (ghost ys: seq<Link>)
      requires Holds(xs)
      modifies nodes
      ensures Holds(ys) && ys == Sort(cmp, xs)
      ensures Orders(cmp, Elements(xs)) ==> StablySorted(cmp, xs, ys)
    {
      SortInPlace(cmp, xs);
      ys := Sort(cmp, xs);
      if Orders(cmp, Elements(xs)) { SortSortsStably(cmp, xs); }
    }

    /** Element after element is moved to its place among those before it. */
    method SortInPlace(cmp: (Link, Link) -> int, ghost xs: seq<Link>)
      requires Holds(xs)
      modifies nodes
      ensures Holds(Sort(cmp, xs))
    {
      StepOn(Links(nodes), h, xs, 0);
      CellOf(h);
      var q := h.next;
      if q == h.prev {
        ShortSorted(cmp, xs);
        return;
      }
      StepOn(Links(nodes), h, xs, 1);
      CellOf(q);
      q := q.next;
      ghost var i := 1;
      FirstSorted(cmp, xs);
      hide Sort, Position, Ring;
      while q != h
        invariant 1 <= i <= |xs| && Holds(Sort(cmp, xs[..i]) + xs[i..]) && q == if i < |xs| then xs[i] else h
        decreases |xs| - i
      {
        ghost var ys := Sort(cmp, xs[..i]);
        SortMembers(cmp, xs[..i]);
        assert xs[i..] == [xs[i]] + xs[i + 1..] && ys + xs[i..] == ys + [q] + xs[i + 1..];
        assert xs[..i + 1][..i] == xs[..i];
        SortLast(cmp, xs[..i + 1]);
        q := SortOne(cmp, q, ys, xs[i + 1..]);
        i := i + 1;
      }
      SortEnd(cmp, xs, i);
    }

    lemma SortEnd(cmp: (Link, Link) -> int, xs: seq<Link>, i: nat)
      requires 1 <= i <= |xs| && Holds(Sort(cmp, xs[..i]) + xs[i..]) && (i < |xs| ==> xs[i] == h)
      ensures Holds(Sort(cmp, xs))
    {
      if i == |xs| { assert xs[..i] == xs && Sort(cmp, xs) + xs[i..] == Sort(cmp, xs); }
    }
  }

  lemma ShortSorted(cmp: (Link, Link) -> int, xs: seq<Link>)
    requires |xs| <= 1
    ensures Sort(cmp, xs) == xs
  {
    if xs != [] {
      assert xs[..0] == [];
      assert With([], 0, xs[0]) == xs;
    }
  }

  lemma FirstSorted(cmp: (Link, Link) -> int, xs: seq<Link>)
    requires |xs| >= 1
    ensures Sort(cmp, xs[..1]) + xs[1..] == xs
  {
    ShortSorted(cmp, xs[..1]);
  }
}
