/** The page structures and the doubly linked lists threaded through them. */
module PageLists {

  /** One page structure. `prev` holds an address together with a page type in its two low bits. */
  datatype Page = Page(slab: nat, next: int, prev: nat)

  const NULL: int := -1

  /** The address word of structure `x`: addresses are multiples of four, and zero is the null pointer. */
  function Addr(x: nat): (w: nat)
    ensures w % 4 == 0 && w > 0 && w / 4 - 1 == x
  {
    4 * (x + 1)
  }

  /** The structure a `prev` word points to, whatever its type bits. */
  function Target(w: nat): int {
    w / 4 - 1
  }

  function Ring(head: nat, xs: seq<nat>): (c: seq<nat>)
    ensures |c| == |xs| + 2 && c[0] == head && c[|xs| + 1] == head
    ensures forall i {:trigger c[i]} :: 0 < i <= |xs| ==> c[i] == xs[i - 1]
  {
    [head] + xs + [head]
  }

  /** Position `i` of the ring points forward to the next one, and that one, unless it is the head, back. */
  predicate Link(pg: seq<Page>, c: seq<nat>, tag: nat, i: nat)
    requires i + 1 < |c| && c[i] < |pg| && c[i + 1] < |pg|
  {
    pg[c[i]].next == c[i + 1] && (i + 2 < |c| ==> pg[c[i + 1]].prev == Addr(c[i]) + tag)
  }

  predicate Differ(c: seq<nat>, i: nat, j: nat)
    requires i < |c| && j < |c|
  {
    c[i] != c[j]
  }

  /** No structure occurs twice in the ring, the closing head aside. */
  ghost predicate Distinct(c: seq<nat>) {
    forall i, j {:trigger Differ(c, i, j)} :: 0 <= i < |c| - 1 && 0 <= j < |c| - 1 && i != j ==> Differ(c, i, j)
  }

  /** A member differs from the structure at every other position, the closing head included. */
  lemma Apart(c: seq<nat>, i: nat, j: nat)
    requires Distinct(c) && 0 < i < |c| - 1 && j < |c| && i != j && c[0] == c[|c| - 1]
    ensures c[i] != c[j]
  {
    if j == |c| - 1 { assert Differ(c, i, 0); } else { assert Differ(c, i, j); }
  }

  /** The list with head `head` holds exactly `xs`, in this order. Only the head's `next` is used. */
  ghost predicate Chain(pg: seq<Page>, head: nat, tag: nat, xs: seq<nat>) {
    var c := Ring(head, xs);
    && Distinct(c)
    && (forall x {:trigger x in xs} :: x in xs ==> x < |pg|)
    && (forall i {:trigger c[i]} :: 0 <= i < |c| ==> c[i] < |pg|)
    && (forall i {:trigger Link(pg, c, tag, i)} :: 0 <= i < |c| - 1 ==> Link(pg, c, tag, i))
  }

  /** A list depends only on the forward links of its ring and the backward links of its members. */
  lemma ChainFrame(pg: seq<Page>, pg': seq<Page>, head: nat, tag: nat, xs: seq<nat>)
    requires Chain(pg, head, tag, xs) && |pg| == |pg'|
    requires pg'[head].next == pg[head].next
    requires forall x :: x in xs ==> pg'[x].next == pg[x].next && pg'[x].prev == pg[x].prev
    ensures Chain(pg', head, tag, xs)
  {
    var c := Ring(head, xs);
    forall i | 0 <= i < |c| - 1 ensures Link(pg', c, tag, i) {
      assert Link(pg, c, tag, i);
      assert i > 0 ==> c[i] == xs[i - 1];
      assert i + 2 < |c| ==> c[i + 1] == xs[i];
    }
  }

  /** The list without its `k`-th member. */
  function Without(xs: seq<nat>, k: nat): seq<nat>
    requires k < |xs|
  {
    xs[..k] + xs[k + 1..]
  }

  /** Structure `x` taken out of its list: its neighbours are joined. */
  function Unlinked(pg: seq<Page>, x: nat): (r: seq<Page>)
    requires x < |pg| && 0 <= Target(pg[x].prev) < |pg| && 0 <= pg[x].next < |pg|
    ensures |r| == |pg|
    ensures forall y {:trigger r[y]} :: 0 <= y < |pg| ==>
      r[y] == Page(pg[y].slab,
                   if y == Target(pg[x].prev) then pg[x].next else pg[y].next,
                   if y == pg[x].next then pg[x].prev else pg[y].prev)
  {
    var p, q := Target(pg[x].prev), pg[x].next;
    var r := pg[p := pg[p].(next := q)];
    r[q := r[q].(prev := pg[x].prev)]
  }

  /** Structure `x` put right behind the head. */
  function Pushed(pg: seq<Page>, head: nat, tag: nat, x: nat): (r: seq<Page>)
    requires x < |pg| && head < |pg| && 0 <= pg[head].next < |pg|
    ensures |r| == |pg|
  {
    var q := pg[head].next;
    var r := pg[x := Page(pg[x].slab, q, Addr(head) + tag)];
    var r := r[head := r[head].(next := x)];
    r[q := r[q].(prev := Addr(x) + tag)]
  }

  /** Structure `y` put in the place of `x`. */
  function Replaced(pg: seq<Page>, x: nat, y: nat, slab: nat): (r: seq<Page>)
    requires x < |pg| && y < |pg| && 0 <= Target(pg[x].prev) < |pg| && 0 <= pg[x].next < |pg|
    ensures |r| == |pg|
    ensures forall z {:trigger r[z]} :: 0 <= z < |pg| ==>
      r[z] == Page(if z == y then slab else pg[z].slab,
                   if z == Target(pg[x].prev) then y else if z == y then pg[x].next else pg[z].next,
                   if z == pg[x].next then Addr(y) else if z == y then pg[x].prev else pg[z].prev)
  {
    var p, q := Target(pg[x].prev), pg[x].next;
    var r := pg[y := Page(slab, q, pg[x].prev)];
    var r := r[p := r[p].(next := y)];
    r[q := r[q].(prev := Addr(y))]
  }

  /** Where the neighbours of the `k`-th member are. */
  lemma Neighbours(pg: seq<Page>, head: nat, tag: nat, xs: seq<nat>, k: nat)
    requires Chain(pg, head, tag, xs) && k < |xs| && tag < 4
    ensures xs[k] < |pg| && xs[k] != head && xs[k] == Ring(head, xs)[k + 1]
    ensures Target(pg[xs[k]].prev) == Ring(head, xs)[k] < |pg|
    ensures pg[xs[k]].prev == Addr(Ring(head, xs)[k]) + tag
    ensures pg[xs[k]].next == Ring(head, xs)[k + 2] < |pg|
  {
    var c := Ring(head, xs);
    assert Link(pg, c, tag, k) && Link(pg, c, tag, k + 1);
    Apart(c, k + 1, 0);
  }

  predicate OnRing(head: nat, xs: seq<nat>, x: int) {
    x == head || (x >= 0 && x in xs)
  }

  lemma NeighboursOnRing(pg: seq<Page>, head: nat, tag: nat, xs: seq<nat>, k: nat)
    requires Chain(pg, head, tag, xs) && k < |xs| && tag < 4
    ensures xs[k] < |pg| && OnRing(head, xs, Target(pg[xs[k]].prev)) && OnRing(head, xs, pg[xs[k]].next)
    ensures Target(pg[xs[k]].prev) != xs[k] && pg[xs[k]].next != xs[k] && pg[xs[k]].prev % 4 == tag
    ensures Target(pg[xs[k]].prev) < |pg| && pg[xs[k]].next < |pg|
  {
    var r := Ring(head, xs);
    Neighbours(pg, head, tag, xs, k);
    assert k > 0 ==> r[k] == xs[k - 1];
    assert k + 1 < |xs| ==> r[k + 2] == xs[k + 1];
    Apart(r, k + 1, k);
    Apart(r, k + 1, k + 2);
  }

  lemma UnlinkChain(pg: seq<Page>, head: nat, tag: nat, xs: seq<nat>, k: nat)
    requires Chain(pg, head, tag, xs) && k < |xs| && tag < 4
    requires xs[k] < |pg| && 0 <= Target(pg[xs[k]].prev) < |pg| && 0 <= pg[xs[k]].next < |pg|
    ensures Chain(Unlinked(pg, xs[k]), head, tag, Without(xs, k))
  {
    Neighbours(pg, head, tag, xs, k);
    var c, d, r := Ring(head, xs), Ring(head, Without(xs, k)), Unlinked(pg, xs[k]);
    assert forall x :: x in Without(xs, k) ==> x in xs;
    assert forall i {:trigger d[i]} :: 0 <= i < |d| ==> d[i] == c[if i <= k then i else i + 1];
    forall i, j | 0 <= i < |d| - 1 && 0 <= j < |d| - 1 && i != j ensures Differ(d, i, j) {
      assert Differ(c, if i <= k then i else i + 1, if j <= k then j else j + 1);
    }
    forall i | 0 <= i < |d| - 1 ensures Link(r, d, tag, i) { UnlinkLink(pg, c, d, r, tag, k, i); }
  }

  lemma UnlinkLink(pg: seq<Page>, c: seq<nat>, d: seq<nat>, r: seq<Page>, tag: nat, k: nat, i: nat)
    requires |c| == |d| + 1 && i < |d| - 1 && k < |d| - 1 && c[0] == c[|c| - 1] && Distinct(c) && |r| == |pg|
    requires forall j :: 0 <= j < |c| ==> c[j] < |pg|
    requires forall j {:trigger d[j]} :: 0 <= j < |d| ==> d[j] == c[if j <= k then j else j + 1]
    requires forall j {:trigger Link(pg, c, tag, j)} :: 0 <= j < |c| - 1 ==> Link(pg, c, tag, j)
    requires forall y {:trigger r[y]} :: 0 <= y < |pg| ==>
      && r[y].next == (if y == c[k] then c[k + 2] else pg[y].next)
      && r[y].prev == (if y == c[k + 2] then Addr(c[k]) + tag else pg[y].prev)
    ensures Link(r, d, tag, i)
  {
    var j := if i < k then i else i + 1;
    assert Link(pg, c, tag, j);
    if i != k {
      assert Differ(c, j, k);
      if j + 2 < |c| { Apart(c, j + 1, k + 2); }
    }
  }

  lemma WithoutMembers(pg: seq<Page>, head: nat, tag: nat, xs: seq<nat>, k: nat)
    requires Chain(pg, head, tag, xs) && k < |xs|
    ensures forall p :: p in Without(xs, k) <==> p in xs && p != xs[k]
  {
    var c := Ring(head, xs);
    forall i | 0 <= i < |xs| && i != k ensures xs[i] != xs[k] { assert Differ(c, i + 1, k + 1); }
    forall p | p in xs && p != xs[k] ensures p in Without(xs, k) {
      var i :| 0 <= i < |xs| && xs[i] == p;
      assert Without(xs, k)[if i < k then i else i - 1] == p;
    }
  }

  lemma FirstOnRing(pg: seq<Page>, head: nat, tag: nat, xs: seq<nat>)
    requires Chain(pg, head, tag, xs)
    ensures pg[head].next == if xs == [] then head else xs[0]
    ensures 0 <= pg[head].next < |pg| && OnRing(head, xs, pg[head].next)
  {
    var c := Ring(head, xs);
    assert Link(pg, c, tag, 0);
    assert xs != [] ==> c[1] == xs[0] && xs[0] in xs;
  }

  /** The test the allocator applies to a list: its first structure's successor is itself only if it is empty. */
  lemma EmptyListTest(pg: seq<Page>, head: nat, tag: nat, xs: seq<nat>)
    requires Chain(pg, head, tag, xs)
    ensures 0 <= pg[head].next < |pg|
    ensures pg[pg[head].next].next == pg[head].next <==> xs == []
    ensures xs != [] ==> pg[head].next == xs[0] && xs[0] in xs
  {
    var c := Ring(head, xs);
    FirstOnRing(pg, head, tag, xs);
    if xs != [] {
      assert Link(pg, c, tag, 1);
      Apart(c, 1, 2);
    }
  }

  lemma NextOnRing(pg: seq<Page>, head: nat, tag: nat, xs: seq<nat>, k: nat)
    requires Chain(pg, head, tag, xs) && k < |xs|
    ensures xs[k] in xs && xs[k] < |pg| && pg[xs[k]].next == if k + 1 == |xs| then head else xs[k + 1]
  {
    var c := Ring(head, xs);
    assert Link(pg, c, tag, k + 1);
  }

  /** Unlinking the `k`-th member leaves a list of the others. */
  lemma UnlinkMember(pg: seq<Page>, head: nat, tag: nat, xs: seq<nat>, k: nat) returns (ys: seq<nat>)
    requires Chain(pg, head, tag, xs) && k < |xs| && tag < 4
    requires xs[k] < |pg| && 0 <= Target(pg[xs[k]].prev) < |pg| && 0 <= pg[xs[k]].next < |pg|
    ensures Chain(Unlinked(pg, xs[k]), head, tag, ys)
    ensures forall p :: p in ys <==> p in xs && p != xs[k]
  {
    ys := Without(xs, k);
    UnlinkChain(pg, head, tag, xs, k);
    WithoutMembers(pg, head, tag, xs, k);
  }

  lemma PushChain(pg: seq<Page>, head: nat, tag: nat, xs: seq<nat>, x: nat)
    requires Chain(pg, head, tag, xs) && x < |pg| && x != head && x !in xs
    requires 0 <= pg[head].next < |pg|
    ensures Chain(Pushed(pg, head, tag, x), head, tag, [x] + xs)
  {
    var c, d, r := Ring(head, xs), Ring(head, [x] + xs), Pushed(pg, head, tag, x);
    assert forall i {:trigger d[i]} :: 0 <= i < |d| ==> d[i] == if i == 0 then head else if i == 1 then x else c[i - 1];
    assert Link(pg, c, tag, 0);
    forall i | 0 <= i < |c| ensures c[i] != x { assert 0 < i <= |xs| ==> c[i] == xs[i - 1]; }
    forall i, j | 0 <= i < |d| - 1 && 0 <= j < |d| - 1 && i != j ensures Differ(d, i, j) {
      if i != 1 && j != 1 { assert Differ(c, if i == 0 then 0 else i - 1, if j == 0 then 0 else j - 1); }
    }
    forall i | 0 <= i < |d| - 1 ensures Link(r, d, tag, i) {
      if i >= 2 {
        assert Link(pg, c, tag, i - 1);
        Apart(c, i - 1, 0);
        if i + 2 < |d| { Apart(c, i, 1); }
      }
    }
  }

  lemma ReplaceChain(pg: seq<Page>, head: nat, xs: seq<nat>, k: nat, y: nat, slab: nat)
    requires Chain(pg, head, 0, xs) && y < |pg| && y != head && y !in xs && k < |xs|
    requires xs[k] < |pg| && 0 <= Target(pg[xs[k]].prev) < |pg| && 0 <= pg[xs[k]].next < |pg|
    ensures Chain(Replaced(pg, xs[k], y, slab), head, 0, xs[k := y])
  {
    Neighbours(pg, head, 0, xs, k);
    var ys := xs[k := y];
    var c, d, r := Ring(head, xs), Ring(head, ys), Replaced(pg, xs[k], y, slab);
    assert forall x :: x in ys ==> x == y || x in xs;
    assert forall i {:trigger d[i]} :: 0 <= i < |c| ==> d[i] == if i == k + 1 then y else c[i];
    forall i | 0 <= i < |c| ensures c[i] != y { assert 0 < i <= |xs| ==> c[i] == xs[i - 1]; }
    forall i, j | 0 <= i < |d| - 1 && 0 <= j < |d| - 1 && i != j ensures Differ(d, i, j) { assert Differ(c, i, j); }
    forall i | 0 <= i < |d| - 1 ensures Link(r, d, 0, i) { ReplaceLink(pg, c, d, r, k, y, i); }
    assert forall i {:trigger d[i]} :: 0 <= i < |d| ==> d[i] < |r|;
    assert Chain(r, head, 0, ys);
  }

  lemma ReplaceMember(pg: seq<Page>, head: nat, xs: seq<nat>, k: nat, y: nat, slab: nat) returns (ys: seq<nat>)
    requires Chain(pg, head, 0, xs) && y < |pg| && y != head && y !in xs && k < |xs|
    requires xs[k] < |pg| && 0 <= Target(pg[xs[k]].prev) < |pg| && 0 <= pg[xs[k]].next < |pg|
    ensures Chain(Replaced(pg, xs[k], y, slab), head, 0, ys)
    ensures forall p :: p in ys <==> p == y || (p in xs && p != xs[k])
  {
    ys := xs[k := y];
    ReplaceChain(pg, head, xs, k, y, slab);
    var c := Ring(head, xs);
    assert ys[k] == y;
    forall i | 0 <= i < |xs| && i != k ensures xs[i] != xs[k] && ys[i] == xs[i] { assert Differ(c, i + 1, k + 1); }
    forall p | p in xs && p != xs[k] ensures p in ys {
      var i :| 0 <= i < |xs| && xs[i] == p;
      assert ys[i] == p;
    }
  }

  lemma ReplaceLink(pg: seq<Page>, c: seq<nat>, d: seq<nat>, r: seq<Page>, k: nat, y: nat, i: nat)
    requires |c| == |d| && i < |c| - 1 && k + 2 < |c| && c[0] == c[|c| - 1] && Distinct(c) && |r| == |pg| && y < |pg|
    requires forall j :: 0 <= j < |c| ==> c[j] < |pg| && c[j] != y
    requires forall j {:trigger d[j]} :: 0 <= j < |c| ==> d[j] == if j == k + 1 then y else c[j]
    requires forall j {:trigger Link(pg, c, 0, j)} :: 0 <= j < |c| - 1 ==> Link(pg, c, 0, j)
    requires forall z {:trigger r[z]} :: 0 <= z < |pg| ==>
      && r[z].next == (if z == c[k] then y else if z == y then c[k + 2] else pg[z].next)
      && r[z].prev == (if z == c[k + 2] then Addr(y) else if z == y then Addr(c[k]) else pg[z].prev)
    ensures Link(r, d, 0, i)
  {
    assert Link(pg, c, 0, i);
    if i != k { assert Differ(c, i, k); }
    if i + 2 < |d| && i != k + 1 { Apart(c, i + 1, k + 2); }
  }
}
