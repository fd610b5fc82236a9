/** What the chunk layer does to the page structures: pages enter and leave slot lists and change their words. */
module SlotSteps {
  import opened Tiles
  import opened PageLists
  import opened PageLayer

  /** Rewriting the `slab` word of a slot's page keeps the page layer. */
  lemma SlabChange(n: nat, pg: seq<Page>, c: seq<Cell>, lists: seq<seq<nat>>, p: nat, w: nat)
    requires PageInv(n, pg, c, lists) && p < n && c[p].kind.Chunked?
    ensures PageInv(n, pg[p := pg[p].(slab := w)], c, lists)
  {
    var pg' := pg[p := pg[p].(slab := w)];
    ListsFrame(n, pg, pg', c, c, lists);
    forall q | 0 <= q < n ensures PageOk(pg', c, lists, q) { assert PageOk(pg, c, lists, q); }
  }

  /** A full page leaves its slot list, keeping its type. */
  lemma LeaveSlot(n: nat, pg: seq<Page>, c: seq<Cell>, lists: seq<seq<nat>>, s: nat, p: nat) returns (ys: seq<nat>)
    requires PageInv(n, pg, c, lists) && s < SLOTS && p in lists[s]
    ensures p < n && c[p].kind == Chunked(s) && c[p].len == 1
    ensures 0 <= Target(pg[p].prev) < |pg| && 0 <= pg[p].next < |pg| && pg[p].prev % 4 == TagOf(s)
    ensures PageInv(n, Unlinked(pg, p)[p := Page(pg[p].slab, NULL, TagOf(s))], c, lists[s := ys])
    ensures forall q :: q in ys <==> q in lists[s] && q != p
  {
    assert ListOk(n, pg, c, s, lists[s]);
    assert MayList(c, s, p) && PageOk(pg, c, lists, p);
    var k :| 0 <= k < |lists[s]| && lists[s][k] == p;
    NeighboursOnRing(pg, n + s, TagOf(s), lists[s], k);
    ys := UnlinkLists(n, pg, c, lists, s, k);
    var pg1, lists' := Unlinked(pg, p), lists[s := ys];
    var pg2 := pg1[p := Page(pg[p].slab, NULL, TagOf(s))];
    forall l, q | 0 <= l < 10 && q in lists'[l] && MayList(c, l, q) ensures q != p {}
    ListsFrame(n, pg1, pg2, c, c, lists');
    forall q | 0 <= q < n ensures PageOk(pg2, c, lists', q) {
      assert PageOk(pg, c, lists, q);
      if q != p {
        UnlinkPageOk(n, pg, c, lists, s, k, ys, q);
        assert PageOk(pg1, c, lists', q);
      }
    }
  }

  /** A page of slot `s` that is on no list goes to the front of its slot list. */
  lemma EnterSlot(n: nat, pg: seq<Page>, c: seq<Cell>, lists: seq<seq<nat>>, s: nat, p: nat)
    requires PageInv(n, pg, c, lists) && s < SLOTS && p < n && c[p].kind == Chunked(s) && pg[p].next == NULL
    ensures 0 <= pg[n + s].next < |pg|
    ensures PageInv(n, Pushed(pg, n + s, TagOf(s), p), c, lists[s := [p] + lists[s]])
  {
    var xs := lists[s];
    assert ListOk(n, pg, c, s, xs) && PageOk(pg, c, lists, p);
    FirstOnRing(pg, n + s, TagOf(s), xs);
    var pg', lists' := Pushed(pg, n + s, TagOf(s), p), lists[s := [p] + xs];
    PushChain(pg, n + s, TagOf(s), xs, p);
    forall l | 0 <= l < 10 ensures ListOk(n, pg', c, l, lists'[l]) {
      assert ListOk(n, pg, c, l, lists[l]);
      if l != s { EnterOther(n, pg, c, s, xs, p, l, lists[l]); }
    }
    forall q | 0 <= q < n ensures PageOk(pg', c, lists', q) {
      assert PageOk(pg, c, lists, q);
      EnterPageOk(n, pg, c, lists, s, p, q);
    }
  }

  lemma EnterOther(n: nat, pg: seq<Page>, c: seq<Cell>, s: nat, xs: seq<nat>, p: nat, l: nat, ys: seq<nat>)
    requires |pg| == n + 10 && |c| == n && p < n && s < SLOTS && c[p].kind == Chunked(s) && l < 10 && l != s
    requires ListOk(n, pg, c, s, xs) && OnRing(n + s, xs, pg[n + s].next) && 0 <= pg[n + s].next < |pg|
    requires ListOk(n, pg, c, l, ys)
    ensures ListOk(n, Pushed(pg, n + s, TagOf(s), p), c, l, ys)
  {
    var pg' := Pushed(pg, n + s, TagOf(s), p);
    forall x | OnRing(n + l, ys, x)
      ensures 0 <= x < |pg| && pg'[x].next == pg[x].next && pg'[x].prev == pg[x].prev
    {
      ListsApart(n, pg, c, l, ys, s, xs, x);
      assert x in ys ==> MayList(c, l, x);
    }
    ListFrame(n, pg, pg', c, c, l, ys);
  }

  lemma EnterPageOk(n: nat, pg: seq<Page>, c: seq<Cell>, lists: seq<seq<nat>>, s: nat, p: nat, q: nat)
    requires |pg| == n + 10 && |c| == n && p < n && q < n && s < SLOTS && ListsOk(n, pg, c, lists)
    requires c[p].kind == Chunked(s) && PageOk(pg, c, lists, q)
    requires OnRing(n + s, lists[s], pg[n + s].next) && 0 <= pg[n + s].next < |pg|
    ensures PageOk(Pushed(pg, n + s, TagOf(s), p), c, lists[s := [p] + lists[s]], q)
  {
    assert ListOk(n, pg, c, s, lists[s]);
    assert q in lists[s] ==> MayList(c, s, q);
  }

  /** A page just taken from the page layer becomes the only page on the list of slot `s`. */
  lemma StartSlot(n: nat, pg: seq<Page>, c: seq<Cell>, lists: seq<seq<nat>>, s: nat, p: nat, w: nat, pg': seq<Page>)
    requires PageInv(n, pg, c, lists) && s < SLOTS && p < n && c[p] == Cell(p, 1, Whole) && lists[s] == []
    requires pg' == pg[p := Page(w, n + s, Addr(n + s) + TagOf(s))][n + s := pg[n + s].(next := p)]
    ensures PageInv(n, pg', c[p := Cell(p, 1, Chunked(s))], lists[s := [p]])
  {
    var c', lists' := c[p := Cell(p, 1, Chunked(s))], lists[s := [p]];
    Retype(c, p, Chunked(s));
    assert ListOk(n, pg, c, s, lists[s]);
    StartOwn(n, pg, pg', c', lists, s, p, w);
    forall l | 0 <= l < 10 ensures ListOk(n, pg', c', l, lists'[l]) {
      assert ListOk(n, pg, c, l, lists[l]);
      if l != s { StartOther(n, pg, pg', c, c', s, p, l, lists[l]); }
    }
    forall q | 0 <= q < n ensures PageOk(pg', c', lists', q) { assert PageOk(pg, c, lists, q); }
    forall q | FreeHead(c', q) ensures q in lists'[FREELIST] { assert FreeHead(c, q); }
  }

  /** A one-page run may change what it is used for. */
  lemma Retype(c: seq<Cell>, p: nat, k: Kind)
    requires Tiled(c) && Coalesced(c) && p < |c| && c[p].head == p && c[p].len == 1 && !k.Free? && !c[p].kind.Free?
    ensures Tiled(c[p := Cell(p, 1, k)]) && Coalesced(c[p := Cell(p, 1, k)])
  {
    var c' := c[p := Cell(p, 1, k)];
    assert c' == Paint(c, p, 1, k);
    PaintKeepsTiling(c, p, 1, k);
    forall q | 0 < q < |c| ensures Joined(c', q) { assert Joined(c, q); }
  }

  lemma StartOwn(n: nat, pg: seq<Page>, pg': seq<Page>, c': seq<Cell>, lists: seq<seq<nat>>, s: nat, p: nat, w: nat)
    requires |pg| == n + 10 && |lists| == 10 && s < SLOTS && p < n && lists[s] == [] && MayList(c', s, p)
    requires Chain(pg, n + s, TagOf(s), lists[s])
    requires pg' == pg[p := Page(w, n + s, Addr(n + s) + TagOf(s))][n + s := pg[n + s].(next := p)]
    ensures ListOk(n, pg', c', s, [p])
  {
    FirstOnRing(pg, n + s, TagOf(s), []);
    PushChain(pg, n + s, TagOf(s), [], p);
    assert [p] + [] == [p];
    ChainFrame(Pushed(pg, n + s, TagOf(s), p), pg', n + s, TagOf(s), [p]);
  }

  lemma StartOther(n: nat, pg: seq<Page>, pg': seq<Page>, c: seq<Cell>, c': seq<Cell>, s: nat, p: nat, l: nat,
      xs: seq<nat>)
    requires |pg| == n + 10 && |c| == n && s < SLOTS && p < n && c[p] == Cell(p, 1, Whole) && l < 10 && l != s
    requires c' == c[p := Cell(p, 1, Chunked(s))] && |pg'| == |pg|
    requires forall x {:trigger pg'[x]} :: 0 <= x < n + 10 && x != p && x != n + s ==> pg'[x] == pg[x]
    requires ListOk(n, pg, c, l, xs)
    ensures ListOk(n, pg', c', l, xs)
  {
    forall x | OnRing(n + l, xs, x)
      ensures 0 <= x < |pg| && pg'[x].next == pg[x].next && pg'[x].prev == pg[x].prev
    {
      assert x in xs ==> MayList(c, l, x);
    }
    forall x | x in xs ensures MayList(c', l, x) { assert MayList(c, l, x); }
    ListFrame(n, pg, pg', c, c', l, xs);
  }
}
