/** The page layer of the slab pool: what the page structures say about the runs, and what each step keeps. */
module PageLayer {
  import opened Words
  import opened Tiles
  import opened PageLists

  const START: nat := 0x8000_0000_0000_0000
  const BUSY: nat := 0xFFFF_FFFF_FFFF_FFFF

  /** Nine slots of chunk sizes; list number 9 is the free list. */
  const SLOTS: nat := 9
  const FREELIST: nat := 9

  /** The page type a slot's pages carry in `prev`: small, exact or big; free and whole pages carry none. */
  function TagOf(l: nat): (t: nat)
    ensures t < 4 && (t == 0 <==> l >= 9)
  {
    if l < 3 then 3 else if l == 3 then 2 else if l < 9 then 1 else 0
  }

  predicate Blank(x: Page) {
    x.slab == 0 && x.next == NULL && x.prev % 4 == 0
  }

  /** The structure of page `p` encodes the run of `p`. Only a run that another page follows needs its
      last page to point back to its first. */
  ghost predicate PageOk(pg: seq<Page>, c: seq<Cell>, lists: seq<seq<nat>>, p: nat)
    requires p < |c| <= |pg| && |lists| == 10
  {
    var r := c[p];
    match r.kind
    case Free =>
      if p == r.head then pg[p].slab == r.len
      else Blank(pg[p]) && (p == r.head + r.len - 1 && p + 1 < |c| && r.head >= 0 ==> pg[p].prev == Addr(r.head))
    case Whole =>
      && pg[p].next == NULL && pg[p].prev == 0
      && pg[p].slab == (if p == r.head then START + r.len else BUSY)
    case Chunked(s) =>
      && s < SLOTS && r.len == 1 && pg[p].prev % 4 == TagOf(s)
      && (pg[p].next == NULL <==> p !in lists[s])
  }

  /** Only the heads of free runs are on the free list, and only pages of its own slot on a slot list. */
  predicate MayList(c: seq<Cell>, l: nat, p: nat) {
    p < |c| && if l == FREELIST then FreeHead(c, p) else c[p].kind == Chunked(l)
  }

  /** List `l` is well formed and holds only pages that belong on it. */
  ghost predicate ListOk(n: nat, pg: seq<Page>, c: seq<Cell>, l: nat, xs: seq<nat>) {
    && Chain(pg, n + l, TagOf(l), xs)
    && (forall p {:trigger p in xs} :: p in xs ==> MayList(c, l, p))
  }

  ghost predicate ListsOk(n: nat, pg: seq<Page>, c: seq<Cell>, lists: seq<seq<nat>>) {
    |lists| == 10 && forall l {:trigger ListOk(n, pg, c, l, lists[l])} :: 0 <= l < 10 ==> ListOk(n, pg, c, l, lists[l])
  }

  /** The page structures represent the tiling, and the free list holds exactly the heads of the free runs. */
  ghost predicate PageInv(n: nat, pg: seq<Page>, c: seq<Cell>, lists: seq<seq<nat>>) {
    && |pg| == n + 10 && |c| == n && n < U32
    && Tiled(c) && Coalesced(c) && ListsOk(n, pg, c, lists)
    && (forall p {:trigger PageOk(pg, c, lists, p)} :: 0 <= p < n ==> PageOk(pg, c, lists, p))
    && (forall p {:trigger FreeHead(c, p)} :: FreeHead(c, p) ==> p in lists[FREELIST])
  }

  /** As PageInv, with the whole runs from `s` to `e` taken out: they are on no list, and blank behind `s`,
      which holds their number. */
  ghost predicate HoleInv(n: nat, pg: seq<Page>, c: seq<Cell>, lists: seq<seq<nat>>, s: nat, e: nat) {
    && |pg| == n + 10 && |c| == n && n < U32 && s < e <= n
    && Tiled(c) && Coalesced(c) && ListsOk(n, pg, c, lists) && WholeRuns(c, s, e)
    && pg[s].slab == e - s
    && (forall p {:trigger PageOk(pg, c, lists, p)} :: 0 <= p < n && !(s <= p < e) ==> PageOk(pg, c, lists, p))
    && (forall p {:trigger FreeHead(c, p)} :: FreeHead(c, p) && !(s <= p < e) ==> p in lists[FREELIST])
    && (forall l, p {:trigger MayList(c, l, p)} :: 0 <= l < 10 && s <= p < e && MayList(c, l, p) ==> p !in lists[l])
    && (forall p {:trigger pg[p]} :: s < p < e ==> Blank(pg[p]))
  }

  /** The slot lists did not change. */
  ghost predicate SameSlots(was: seq<seq<nat>>, now: seq<seq<nat>>) {
    |was| == |now| == 10 && forall s {:trigger now[s]} {:trigger was[s]} :: 0 <= s < FREELIST ==> now[s] == was[s]
  }

  /** The members and the head of a list are on no other list. */
  lemma ListsApart(n: nat, pg: seq<Page>, c: seq<Cell>, l: nat, xs: seq<nat>, m: nat, ys: seq<nat>, x: nat)
    requires ListOk(n, pg, c, l, xs) && ListOk(n, pg, c, m, ys) && l < 10 && m < 10 && l != m && |c| == n
    ensures OnRing(n + l, xs, x) ==> !OnRing(n + m, ys, x)
  {
    assert x in xs ==> MayList(c, l, x);
    assert x in ys ==> MayList(c, m, x);
  }

  /** A list is kept by changes that do not reach its ring. */
  lemma ListFrame(n: nat, pg: seq<Page>, pg': seq<Page>, c: seq<Cell>, c': seq<Cell>, l: nat, xs: seq<nat>)
    requires ListOk(n, pg, c, l, xs) && |pg'| == |pg|
    requires forall x {:trigger OnRing(n + l, xs, x)} :: OnRing(n + l, xs, x) ==>
      0 <= x < |pg| && pg'[x].next == pg[x].next && pg'[x].prev == pg[x].prev
    requires forall p {:trigger p in xs} :: p in xs ==> MayList(c', l, p)
    ensures ListOk(n, pg', c', l, xs)
  {
    assert OnRing(n + l, xs, n + l);
    forall x | x in xs ensures pg'[x].next == pg[x].next && pg'[x].prev == pg[x].prev {
      assert OnRing(n + l, xs, x);
    }
    ChainFrame(pg, pg', n + l, TagOf(l), xs);
  }

  /** Unlinking a list's member keeps every list; the other lists do not see it. */
  lemma UnlinkLists(n: nat, pg: seq<Page>, c: seq<Cell>, lists: seq<seq<nat>>, l: nat, k: nat) returns (ys: seq<nat>)
    requires ListsOk(n, pg, c, lists) && l < 10 && k < |lists[l]| && |pg| == n + 10 && |c| == n
    requires lists[l][k] < |pg|
    requires 0 <= Target(pg[lists[l][k]].prev) < |pg| && 0 <= pg[lists[l][k]].next < |pg|
    ensures ListsOk(n, Unlinked(pg, lists[l][k]), c, lists[l := ys])
    ensures forall p :: p in ys <==> p in lists[l] && p != lists[l][k]
  {
    var xs, pg' := lists[l], Unlinked(pg, lists[l][k]);
    assert ListOk(n, pg, c, l, xs);
    ys := UnlinkMember(pg, n + l, TagOf(l), xs, k);
    NeighboursOnRing(pg, n + l, TagOf(l), xs, k);
    var lists' := lists[l := ys];
    assert ListOk(n, pg', c, l, ys);
    forall m | 0 <= m < 10 ensures ListOk(n, pg', c, m, lists'[m]) {
      if m != l {
        assert ListOk(n, pg, c, m, lists[m]);
        UnlinkOther(n, pg, c, l, xs, k, m, lists[m]);
      }
    }
  }

  lemma UnlinkOther(n: nat, pg: seq<Page>, c: seq<Cell>, l: nat, xs: seq<nat>, k: nat, m: nat, ys: seq<nat>)
    requires l < 10 && m < 10 && l != m && |pg| == n + 10 && |c| == n && k < |xs| && xs[k] < |pg|
    requires 0 <= Target(pg[xs[k]].prev) < |pg| && 0 <= pg[xs[k]].next < |pg|
    requires OnRing(n + l, xs, Target(pg[xs[k]].prev)) && OnRing(n + l, xs, pg[xs[k]].next)
    requires ListOk(n, pg, c, l, xs)
    requires ListOk(n, pg, c, m, ys)
    ensures ListOk(n, Unlinked(pg, xs[k]), c, m, ys)
  {
    var pg' := Unlinked(pg, xs[k]);
    forall x | OnRing(n + m, ys, x)
      ensures 0 <= x < |pg| && pg'[x].next == pg[x].next && pg'[x].prev == pg[x].prev
    {
      ListsApart(n, pg, c, m, ys, l, xs, x);
      assert x in ys ==> MayList(c, m, x);
    }
    ListFrame(n, pg, pg', c, c, m, ys);
  }

  /** Changing structures that no list runs through keeps the lists. */
  lemma ListsFrame(n: nat, pg: seq<Page>, pg': seq<Page>, c: seq<Cell>, c': seq<Cell>, lists: seq<seq<nat>>)
    requires ListsOk(n, pg, c, lists) && |pg| == n + 10 && |pg'| == |pg| && |c| == n && |c'| == n
    requires forall x {:trigger pg'[x]} :: n <= x < n + 10 ==> pg'[x].next == pg[x].next && pg'[x].prev == pg[x].prev
    requires forall l, p {:trigger MayList(c, l, p)} :: 0 <= l < 10 && p in lists[l] && MayList(c, l, p) ==>
      pg'[p].next == pg[p].next && pg'[p].prev == pg[p].prev && MayList(c', l, p)
    ensures ListsOk(n, pg', c', lists)
  {
    forall l | 0 <= l < 10 ensures ListOk(n, pg', c', l, lists[l]) {
      assert ListOk(n, pg, c, l, lists[l]);
      forall x | OnRing(n + l, lists[l], x)
        ensures 0 <= x < |pg| && pg'[x].next == pg[x].next && pg'[x].prev == pg[x].prev
      {
        assert x in lists[l] ==> MayList(c, l, x);
      }
      forall p | p in lists[l] ensures MayList(c', l, p) { assert MayList(c, l, p); }
      ListFrame(n, pg, pg', c, c', l, lists[l]);
    }
  }

  /** The free run at position `k` of the free list, and the two structures beside it there. */
  lemma FreeNeighbours(n: nat, pg: seq<Page>, c: seq<Cell>, lists: seq<seq<nat>>, k: nat)
    requires PageInv(n, pg, c, lists) && k < |lists[FREELIST]|
    ensures var a := lists[FREELIST][k];
      && FreeHead(c, a) && c[a].len > 0 && a + c[a].len <= n && pg[a].slab == c[a].len && pg[a].prev % 4 == 0
      && Beside(n, c, a, Target(pg[a].prev)) && Beside(n, c, a, pg[a].next)
  {
    var xs := lists[FREELIST];
    assert ListOk(n, pg, c, FREELIST, xs);
    NeighboursOnRing(pg, n + 9, 0, xs, k);
    assert xs[k] in xs;
    assert MayList(c, FREELIST, xs[k]);
    assert PageOk(pg, c, lists, xs[k]);
    var p, q := Target(pg[xs[k]].prev), pg[xs[k]].next;
    assert p in xs ==> MayList(c, FREELIST, p);
    assert q in xs ==> MayList(c, FREELIST, q);
  }

  /** A structure that can stand beside the free run `a` on the free list. */
  predicate Beside(n: nat, c: seq<Cell>, a: nat, x: int) {
    x == n + 9 || (x != a && FreeHead(c, x) && x < n)
  }

  lemma BesideApart(n: nat, c: seq<Cell>, a: nat, x: int)
    requires |c| == n && Tiled(c) && FreeHead(c, a) && Beside(n, c, a, x)
    ensures 0 <= x < n + 10 && !(a <= x < a + c[a].len)
  {
    if 0 <= x < n { SameRun(c, a, x); }
    assert InRun(c[a], a);
  }

  /** What taking the first `want` pages of a larger free run leaves in the page structures. */
  ghost predicate SplitTo(n: nat, pg: seq<Page>, pg': seq<Page>, a: nat, len: nat, want: nat)
    requires a + len <= n && |pg| == n + 10
  {
    && |pg'| == |pg| && 0 < want < len
    && pg'[a] == Page(START + want, NULL, 0)
    && pg'[a + want] == Page(len - want, pg[a].next, pg[a].prev)
    && (forall y {:trigger pg'[y]} :: a < y < a + want ==> pg'[y] == Page(BUSY, NULL, 0))
    && (forall y {:trigger pg'[y]} :: 0 <= y < n + 10 && !(a <= y <= a + want) ==>
          pg'[y] == Page(pg[y].slab,
                         if y == Target(pg[a].prev) then a + want else pg[y].next,
                         if y == pg[a].next || y == a + len - 1 then Addr(a + want) else pg[y].prev))
  }

  lemma SplitPages(n: nat, pg: seq<Page>, pg': seq<Page>, c: seq<Cell>, lists: seq<seq<nat>>, a: nat, want: nat,
                   lists': seq<seq<nat>>, p: nat)
    requires PageInv(n, pg, c, lists) && p < n && SameSlots(lists, lists')
    requires FreeHead(c, a) && SplitTo(n, pg, pg', a, c[a].len, want)
    requires Beside(n, c, a, Target(pg[a].prev)) && Beside(n, c, a, pg[a].next)
    ensures PageOk(pg', AllocCells(c, a, want), lists', p)
  {
    assert PageOk(pg, c, lists, p);
    SameRun(c, a, p);
    assert InRun(c[p], p);
    HeadIsOwn(c, p);
  }

  lemma SplitList(n: nat, pg: seq<Page>, pg': seq<Page>, c: seq<Cell>, lists: seq<seq<nat>>, k: nat, a: nat, want: nat)
    returns (ys: seq<nat>)
    requires PageInv(n, pg, c, lists) && k < |lists[FREELIST]| && a == lists[FREELIST][k]
    requires FreeHead(c, a) && SplitTo(n, pg, pg', a, c[a].len, want)
    ensures Chain(pg', n + 9, 0, ys)
    ensures forall x :: x in ys <==> x == a + want || (x in lists[FREELIST] && x != a)
  {
    var xs, l := lists[FREELIST], c[a].len;
    assert ListOk(n, pg, c, FREELIST, xs);
    FreeNeighbours(n, pg, c, lists, k);
    var pg1 := pg[a + l - 1 := pg[a + l - 1].(prev := Addr(a + want))];
    forall x | x in xs ensures pg1[x].next == pg[x].next && pg1[x].prev == pg[x].prev && x != a + want {
      assert MayList(c, FREELIST, x);
      SameRun(c, a, x);
    }
    ChainFrame(pg, pg1, n + 9, 0, xs);
    var pg2 := Replaced(pg1, a, a + want, l - want);
    ys := ReplaceMember(pg1, n + 9, xs, k, a + want, l - want);
    forall x | x in ys ensures pg'[x].next == pg2[x].next && pg'[x].prev == pg2[x].prev {
      if x != a + want {
        assert MayList(c, FREELIST, x);
        SameRun(c, a, x);
      }
    }
    ChainFrame(pg2, pg', n + 9, 0, ys);
  }

  lemma SplitKeeps(n: nat, pg: seq<Page>, pg': seq<Page>, c: seq<Cell>, lists: seq<seq<nat>>, k: nat, a: nat, want: nat)
    returns (lists': seq<seq<nat>>)
    requires PageInv(n, pg, c, lists) && k < |lists[FREELIST]| && a == lists[FREELIST][k]
    requires FreeHead(c, a) && SplitTo(n, pg, pg', a, c[a].len, want)
    ensures PageInv(n, pg', AllocCells(c, a, want), lists')
    ensures SameSlots(lists, lists')
  {
    var c' := AllocCells(c, a, want);
    AllocKeepsTiling(c, a, want);
    FreeNeighbours(n, pg, c, lists, k);
    var ys := SplitList(n, pg, pg', c, lists, k, a, want);
    lists' := lists[FREELIST := ys];
    forall l | 0 <= l < 10 ensures ListOk(n, pg', c', l, lists'[l]) {
      assert ListOk(n, pg, c, l, lists[l]);
      if l == FREELIST {
        forall x | x in ys ensures MayList(c', l, x) {
          assert x in lists[l] ==> MayList(c, l, x);
          if x != a + want { SameRun(c, a, x); }
        }
      } else {
        SplitOther(n, pg, pg', c, a, want, l, lists[l]);
      }
    }
    forall p | 0 <= p < n ensures PageOk(pg', c', lists', p) {
      SplitPages(n, pg, pg', c, lists, a, want, lists', p);
    }
    forall p | FreeHead(c', p) ensures p in ys {
      if p != a + want { assert FreeHead(c, p); }
    }
  }

  lemma SplitOther(n: nat, pg: seq<Page>, pg': seq<Page>, c: seq<Cell>, a: nat, want: nat, l: nat, xs: seq<nat>)
    requires |pg| == n + 10 && |c| == n && Tiled(c) && FreeHead(c, a) && l < FREELIST
    requires SplitTo(n, pg, pg', a, c[a].len, want)
    requires Beside(n, c, a, Target(pg[a].prev)) && Beside(n, c, a, pg[a].next)
    requires ListOk(n, pg, c, l, xs)
    ensures ListOk(n, pg', AllocCells(c, a, want), l, xs)
  {
    forall x | OnRing(n + l, xs, x)
      ensures 0 <= x < |pg| && pg'[x].next == pg[x].next && pg'[x].prev == pg[x].prev
    {
      if x in xs { assert MayList(c, l, x); SameRun(c, a, x); SameRun(c, a, a + c[a].len - 1); }
    }
    forall x | x in xs ensures MayList(AllocCells(c, a, want), l, x) {
      assert MayList(c, l, x);
      SameRun(c, a, x);
    }
    ListFrame(n, pg, pg', c, AllocCells(c, a, want), l, xs);
  }

  /** What taking a whole free run leaves in the page structures. */
  ghost predicate TakeTo(n: nat, pg: seq<Page>, pg': seq<Page>, a: nat, len: nat)
    requires a + len <= n && |pg| == n + 10 && len > 0
  {
    && |pg'| == |pg|
    && pg'[a] == Page(START + len, NULL, 0)
    && (forall y {:trigger pg'[y]} :: a < y < a + len ==> pg'[y] == Page(BUSY, NULL, 0))
    && (forall y {:trigger pg'[y]} :: 0 <= y < n + 10 && !(a <= y < a + len) ==>
          pg'[y] == Page(pg[y].slab,
                         if y == Target(pg[a].prev) then pg[a].next else pg[y].next,
                         if y == pg[a].next then pg[a].prev else pg[y].prev))
  }

  lemma TakeKeeps(n: nat, pg: seq<Page>, pg': seq<Page>, c: seq<Cell>, lists: seq<seq<nat>>, k: nat, a: nat)
    returns (lists': seq<seq<nat>>)
    requires PageInv(n, pg, c, lists) && k < |lists[FREELIST]| && a == lists[FREELIST][k]
    requires FreeHead(c, a) && c[a].len > 0 && a + c[a].len <= n && TakeTo(n, pg, pg', a, c[a].len)
    ensures PageInv(n, pg', AllocCells(c, a, c[a].len), lists')
    ensures SameSlots(lists, lists')
  {
    var c' := AllocCells(c, a, c[a].len);
    AllocKeepsTiling(c, a, c[a].len);
    FreeNeighbours(n, pg, c, lists, k);
    var ys := UnlinkLists(n, pg, c, lists, FREELIST, k);
    lists' := lists[FREELIST := ys];
    forall l, p | 0 <= l < 10 && p in lists'[l] && MayList(c, l, p)
      ensures pg'[p].next == Unlinked(pg, a)[p].next && pg'[p].prev == Unlinked(pg, a)[p].prev && MayList(c', l, p)
    {
      SameRun(c, a, p);
    }
    ListsFrame(n, Unlinked(pg, a), pg', c, c', lists');
    forall p | 0 <= p < n ensures PageOk(pg', c', lists', p) {
      TakePages(n, pg, pg', c, lists, a, lists', p);
    }
    forall p | FreeHead(c', p) ensures p in ys { assert FreeHead(c, p); }
  }

  lemma TakePages(n: nat, pg: seq<Page>, pg': seq<Page>, c: seq<Cell>, lists: seq<seq<nat>>, a: nat,
                  lists': seq<seq<nat>>, p: nat)
    requires PageInv(n, pg, c, lists) && p < n && SameSlots(lists, lists')
    requires FreeHead(c, a) && c[a].len > 0 && a + c[a].len <= n && TakeTo(n, pg, pg', a, c[a].len)
    requires Beside(n, c, a, Target(pg[a].prev)) && Beside(n, c, a, pg[a].next)
    ensures PageOk(pg', AllocCells(c, a, c[a].len), lists', p)
  {
    assert PageOk(pg, c, lists, p);
    SameRun(c, a, p);
    assert InRun(c[p], p);
    HeadIsOwn(c, p);
  }

  /** Unlinking one page leaves what every other page says. */
  lemma UnlinkPageOk(n: nat, pg: seq<Page>, c: seq<Cell>, lists: seq<seq<nat>>, l: nat, k: nat, ys: seq<nat>, p: nat)
    requires ListsOk(n, pg, c, lists) && l < 10 && k < |lists[l]| && |pg| == n + 10 && |c| == n && p < n
    requires PageOk(pg, c, lists, p) && p != lists[l][k] && lists[l][k] < |pg|
    requires 0 <= Target(pg[lists[l][k]].prev) < |pg| && 0 <= pg[lists[l][k]].next < |pg|
    requires forall x :: x in ys <==> x in lists[l] && x != lists[l][k]
    ensures PageOk(Unlinked(pg, lists[l][k]), c, lists[l := ys], p)
  {
    var xs := lists[l];
    assert ListOk(n, pg, c, l, xs);
    NeighboursOnRing(pg, n + l, TagOf(l), xs, k);
    assert p in xs ==> MayList(c, l, p);
  }

  /** Opening a hole at an allocated run that is on no list: its size is written, and the rest is cleared. */
  lemma HoleOpens(n: nat, pg: seq<Page>, pg': seq<Page>, c: seq<Cell>, lists: seq<seq<nat>>, s: nat, e: nat)
    requires PageInv(n, pg, c, lists) && s < n && c[s].head == s && !c[s].kind.Free? && e == s + c[s].len
    requires pg[s].next == NULL && |pg'| == |pg|
    requires forall y {:trigger pg'[y]} :: 0 <= y < n + 10 ==>
      pg'[y] == if y == s then pg[s].(slab := e - s) else if s < y < e then Page(0, NULL, 0) else pg[y]
    ensures HoleInv(n, pg', c, lists, s, e)
    ensures forall l {:trigger lists[l]} :: 0 <= l < 10 ==> s !in lists[l]
  {
    forall y | s <= y < e ensures c[y] == c[s] { SameRun(c, s, y); }
    assert PageOk(pg, c, lists, s);
    forall l | 0 <= l < 10 ensures s !in lists[l] {
      assert ListOk(n, pg, c, l, lists[l]);
      assert s in lists[l] ==> MayList(c, l, s);
    }
    ListsFrame(n, pg, pg', c, c, lists);
    forall l, p | 0 <= l < 10 && s <= p < e && MayList(c, l, p) ensures p !in lists[l] {
      assert ListOk(n, pg, c, l, lists[l]);
    }
    forall p | 0 <= p < n && !(s <= p < e) ensures PageOk(pg', c, lists, p) {
      assert PageOk(pg, c, lists, p);
    }
  }

  /** Opening a hole at a slot's page: it is also unlinked from its slot list. */
  lemma HoleOpensListed(n: nat, pg: seq<Page>, c: seq<Cell>, lists: seq<seq<nat>>, s: nat)
      returns (k: nat, ys: seq<nat>)
    requires PageInv(n, pg, c, lists) && s < n && c[s].kind.Chunked? && pg[s].next != NULL
    ensures 0 <= Target(pg[s].prev) < |pg| && 0 <= pg[s].next < |pg| && c[s].kind.slot < 9
    ensures k < |lists[c[s].kind.slot]| && lists[c[s].kind.slot][k] == s
    ensures forall x :: x in ys <==> x in lists[c[s].kind.slot] && x != s
    ensures HoleInv(n, Unlinked(pg[s := pg[s].(slab := 1)], s), c, lists[c[s].kind.slot := ys], s, s + 1)
    ensures PageOk(pg, c, lists, s)
    ensures forall l {:trigger lists[l]} :: 0 <= l < 10 && l != c[s].kind.slot ==> s !in lists[l]
  {
    var l, pg1 := c[s].kind.slot, pg[s := pg[s].(slab := 1)];
    assert PageOk(pg, c, lists, s) && InRun(c[s], s);
    assert ListOk(n, pg, c, l, lists[l]);
    k :| 0 <= k < |lists[l]| && lists[l][k] == s;
    NeighboursOnRing(pg, n + l, TagOf(l), lists[l], k);
    ListsFrame(n, pg, pg1, c, c, lists);
    ys := UnlinkLists(n, pg1, c, lists, l, k);
    var lists', pg2 := lists[l := ys], Unlinked(pg1, s);
    forall p | 0 <= p < n && p != s ensures PageOk(pg2, c, lists', p) {
      assert PageOk(pg, c, lists, p);
      assert PageOk(pg1, c, lists, p);
      UnlinkPageOk(n, pg1, c, lists, l, k, ys, p);
    }
    forall m | 0 <= m < 10 && m != l ensures s !in lists[m] {
      assert ListOk(n, pg, c, m, lists[m]);
      assert s in lists[m] ==> MayList(c, m, s);
    }
  }

  /** The free run right behind the hole joins it. */
  lemma HoleJoinsRight(n: nat, pg: seq<Page>, c: seq<Cell>, lists: seq<seq<nat>>, s: nat, e: nat)
    returns (k: nat, ys: seq<nat>)
    requires HoleInv(n, pg, c, lists, s, e) && e < n && c[e].head == e && c[e].kind.Free?
    ensures k < |lists[FREELIST]| && lists[FREELIST][k] == e && pg[e].slab == c[e].len && e + c[e].len <= n
    ensures 0 <= Target(pg[e].prev) < |pg| && 0 <= pg[e].next < |pg|
    ensures HoleInv(n, Unlinked(pg[s := pg[s].(slab := e - s + c[e].len)], e)[e := Page(0, NULL, 0)], c,
                    lists[FREELIST := ys], s, e + c[e].len)
  {
    var pg1, e' := pg[s := pg[s].(slab := e - s + c[e].len)], e + c[e].len;
    k := FreeAt(n, pg, c, lists, s, e, e);
    ListsFrame(n, pg, pg1, c, c, lists);
    ys := UnlinkLists(n, pg1, c, lists, FREELIST, k);
    forall p | 0 <= p < n && !(s <= p < e) ensures PageOk(pg1, c, lists, p) { assert PageOk(pg, c, lists, p); }
    HoleGrows(n, pg1, c, lists, k, ys, s, e, e, s, e');
  }

  /** The free run right before the hole joins it, and becomes its first. */
  lemma HoleJoinsLeft(n: nat, pg: seq<Page>, c: seq<Cell>, lists: seq<seq<nat>>, s: nat, e: nat, h: nat)
    returns (k: nat, ys: seq<nat>)
    requires HoleInv(n, pg, c, lists, s, e) && h < s && c[h].head == h && c[h].kind.Free? && h + c[h].len == s
    ensures k < |lists[FREELIST]| && lists[FREELIST][k] == h && pg[h].slab == c[h].len
    ensures 0 <= Target(pg[h].prev) < |pg| && 0 <= pg[h].next < |pg|
    ensures HoleInv(n, Unlinked(pg[h := pg[h].(slab := e - h)], h)[s := Page(0, NULL, 0)], c,
                    lists[FREELIST := ys], h, e)
  {
    var pg1 := pg[h := pg[h].(slab := e - h)];
    k := FreeAt(n, pg, c, lists, s, e, h);
    ListsFrame(n, pg, pg1, c, c, lists);
    ys := UnlinkLists(n, pg1, c, lists, FREELIST, k);
    forall p | 0 <= p < n && p != h
        && !(s <= p < e) ensures PageOk(pg1, c, lists, p) { assert PageOk(pg, c, lists, p); }
    HoleGrows(n, pg1, c, lists, k, ys, s, e, h, h, e);
  }

  lemma FreeAt(n: nat, pg: seq<Page>, c: seq<Cell>, lists: seq<seq<nat>>, s: nat, e: nat, x: nat) returns (k: nat)
    requires HoleInv(n, pg, c, lists, s, e) && !(s <= x < e) && FreeHead(c, x)
    ensures k < |lists[FREELIST]| && lists[FREELIST][k] == x && pg[x].slab == c[x].len && x + c[x].len <= n
    ensures 0 <= Target(pg[x].prev) < |pg| && 0 <= pg[x].next < |pg|
  {
    assert PageOk(pg, c, lists, x);
    assert ListOk(n, pg, c, FREELIST, lists[FREELIST]);
    assert x in lists[FREELIST];
    k :| 0 <= k < |lists[FREELIST]| && lists[FREELIST][k] == x;
    NeighboursOnRing(pg, n + 9, 0, lists[FREELIST], k);
  }

  /** A free run beside the hole, the whole of it unlinked and about to be taken in. */
  ghost predicate Growing(n: nat, pg: seq<Page>, c: seq<Cell>, lists: seq<seq<nat>>, k: nat, ys: seq<nat>,
                          s: nat, e: nat, x: nat, s': nat, e': nat) {
    && |pg| == n + 10 && |c| == n && n < U32 && s < e <= n && x < n && |lists| == 10 && k < |lists[FREELIST]|
    && Tiled(c) && Coalesced(c) && ListsOk(n, pg, c, lists) && WholeRuns(c, s, e)
    && FreeHead(c, x) && lists[FREELIST][k] == x && !(s <= x < e)
    && ((x == e && s' == s && e' == e + c[x].len <= n) || (x + c[x].len == s && s' == x && e' == e))
    && (forall p {:trigger PageOk(pg, c, lists, p)} ::
        0 <= p < n && !(s <= p < e) && p != x ==> PageOk(pg, c, lists, p))
    && (forall p {:trigger FreeHead(c, p)} :: FreeHead(c, p) && !(s <= p < e) ==> p in lists[FREELIST])
    && (forall l, p {:trigger MayList(c, l, p)} :: 0 <= l < 10 && s <= p < e && MayList(c, l, p) ==> p !in lists[l])
    && (forall p {:trigger pg[p]} :: s < p < e ==> Blank(pg[p]))
    && 0 <= Target(pg[x].prev) < |pg| && 0 <= pg[x].next < |pg|
    && (forall p {:trigger p in ys} :: p in ys <==> p in lists[FREELIST] && p != x)
  }

  /** The hole takes in the free run at `x`, on either side, once that is unlinked and the inner head cleared. */
  lemma HoleGrows(n: nat, pg: seq<Page>, c: seq<Cell>, lists: seq<seq<nat>>, k: nat, ys: seq<nat>,
                  s: nat, e: nat, x: nat, s': nat, e': nat)
    requires Growing(n, pg, c, lists, k, ys, s, e, x, s', e') && pg[s'].slab == e' - s'
    requires ListsOk(n, Unlinked(pg, x), c, lists[FREELIST := ys])
    ensures HoleInv(n, Unlinked(pg, x)[(if x == e then e else s) := Page(0, NULL, 0)], c, lists[FREELIST := ys], s', e')
  {
    var b, pg1, lists' := if x == e then e else s, Unlinked(pg, x), lists[FREELIST := ys];
    var pg2 := pg1[b := Page(0, NULL, 0)];
    forall p | x <= p < x + c[x].len ensures c[p] == c[x] { SameRun(c, x, p); }
    HoleOff(n, pg, c, lists, k, ys, s, e, x, s', e');
    ListsFrame(n, pg1, pg2, c, c, lists');
    forall p | 0 <= p < n && !(s' <= p < e') ensures PageOk(pg2, c, lists', p) {
      assert PageOk(pg, c, lists, p);
      UnlinkPageOk(n, pg, c, lists, FREELIST, k, ys, p);
      assert PageOk(pg1, c, lists', p);
    }
    HoleBlank(n, pg, c, lists, k, ys, s, e, x, s', e');
  }

  lemma HoleOff(n: nat, pg: seq<Page>, c: seq<Cell>, lists: seq<seq<nat>>, k: nat, ys: seq<nat>,
                s: nat, e: nat, x: nat, s': nat, e': nat)
    requires Growing(n, pg, c, lists, k, ys, s, e, x, s', e')
    ensures forall l, p {:trigger MayList(c, l, p)} :: 0 <= l < 10 && s' <= p < e' && MayList(c, l, p) ==>
      p !in lists[FREELIST := ys][l]
  {
    var lists' := lists[FREELIST := ys];
    forall l, p | 0 <= l < 10 && s' <= p < e' && MayList(c, l, p) ensures p !in lists'[l] {
      if !(s <= p < e) { SameRun(c, x, p); }
    }
  }

  lemma HoleBlank(n: nat, pg: seq<Page>, c: seq<Cell>, lists: seq<seq<nat>>, k: nat, ys: seq<nat>,
                  s: nat, e: nat, x: nat, s': nat, e': nat)
    requires Growing(n, pg, c, lists, k, ys, s, e, x, s', e')
    ensures forall p {:trigger Unlinked(pg, x)[p]} :: s' < p < e' && p != (if x == e then e else s) ==>
      Blank(Unlinked(pg, x)[p])
  {
    forall p | s' < p < e' && p != (if x == e then e else s) ensures Blank(Unlinked(pg, x)[p]) {
      if s < p < e {
        assert Blank(pg[p]);
      } else {
        SameRun(c, x, p);
        assert PageOk(pg, c, lists, p);
      }
      OffFreeList(n, pg, c, lists, s, e, x, p);
      RingPageNotBlank(n, pg, c, lists, k, x, p);
    }
  }

  lemma OffFreeList(n: nat, pg: seq<Page>, c: seq<Cell>, lists: seq<seq<nat>>, s: nat, e: nat, x: nat, p: nat)
    requires |pg| == n + 10 && |c| == n && |lists| == 10 && x < n && p < n && Tiled(c) && ListsOk(n, pg, c, lists)
    requires forall l, p {:trigger MayList(c, l, p)} :: 0 <= l < 10 && s <= p < e && MayList(c, l, p) ==> p !in lists[l]
    requires FreeHead(c, x) && x != p && (s <= p < e || InRun(c[x], p))
    ensures p !in lists[FREELIST]
  {
    assert ListOk(n, pg, c, FREELIST, lists[FREELIST]);
    assert p in lists[FREELIST] ==> MayList(c, FREELIST, p);
    SameRun(c, x, p);
  }

  /** A page inside a hole, or inside a free run, is not a neighbour on the free list. */
  lemma RingPageNotBlank(n: nat, pg: seq<Page>, c: seq<Cell>, lists: seq<seq<nat>>, k: nat, x: nat, p: nat)
    requires ListsOk(n, pg, c, lists) && |pg| == n + 10 && |c| == n && p < n
    requires k < |lists[FREELIST]| && lists[FREELIST][k] == x && p !in lists[FREELIST]
    ensures x < |pg| && Target(pg[x].prev) != p && pg[x].next != p
  {
    assert ListOk(n, pg, c, FREELIST, lists[FREELIST]);
    NeighboursOnRing(pg, n + 9, 0, lists[FREELIST], k);
  }

  /** The last page of a hole of several pages points back to its first. */
  function PointBack(pg: seq<Page>, s: nat, e: nat): (r: seq<Page>)
    requires s < e <= |pg|
    ensures |r| == |pg|
  {
    if e - s > 1 then pg[e - 1 := pg[e - 1].(prev := Addr(s))] else pg
  }

  /** Closing a hole that no free run touches: it becomes a free run, first on the free list. */
  lemma HoleCloses(n: nat, pg: seq<Page>, c: seq<Cell>, lists: seq<seq<nat>>, s: nat, e: nat)
    requires HoleInv(n, pg, c, lists, s, e)
    requires (s == 0 || !c[s - 1].kind.Free?) && (e == n || !c[e].kind.Free?)
    ensures 0 <= PointBack(pg, s, e)[n + 9].next < |pg|
    ensures PageInv(n, Pushed(PointBack(pg, s, e), n + 9, 0, s), Paint(c, s, e - s, Free),
                    lists[FREELIST := [s] + lists[FREELIST]])
  {
    var c', pg1 := Paint(c, s, e - s, Free), PointBack(pg, s, e);
    PaintKeepsTiling(c, s, e - s, Free);
    PaintFreeCoalesced(c, s, e - s);
    PointBackLists(n, pg, c, lists, s, e);
    var q, pg2 := pg1[n + 9].next, Pushed(pg1, n + 9, 0, s);
    var lists' := lists[FREELIST := [s] + lists[FREELIST]];
    PushedLists(n, pg1, c', lists, s);
    forall p | 0 <= p < n ensures PageOk(pg2, c', lists', p) {
      if !(s <= p < e) { assert PageOk(pg, c, lists, p); }
      ClosedPage(n, pg, c, lists, s, e, p, q);
    }
    forall p | FreeHead(c', p) ensures p in lists'[FREELIST] {
      if p != s { assert FreeHead(c, p); }
    }
  }

  lemma PointBackLists(n: nat, pg: seq<Page>, c: seq<Cell>, lists: seq<seq<nat>>, s: nat, e: nat)
    requires HoleInv(n, pg, c, lists, s, e)
    ensures ListsOk(n, PointBack(pg, s, e), Paint(c, s, e - s, Free), lists)
    ensures s !in lists[FREELIST] && FreeHead(Paint(c, s, e - s, Free), s)
    ensures OnRing(n + 9, lists[FREELIST], PointBack(pg, s, e)[n + 9].next)
    ensures 0 <= PointBack(pg, s, e)[n + 9].next < |pg|
  {
    var c', pg1 := Paint(c, s, e - s, Free), PointBack(pg, s, e);
    forall l, p | 0 <= l < 10 && p in lists[l] && MayList(c, l, p)
      ensures pg1[p].next == pg[p].next && pg1[p].prev == pg[p].prev && MayList(c', l, p)
    {}
    ListsFrame(n, pg, pg1, c, c', lists);
    assert ListOk(n, pg, c, FREELIST, lists[FREELIST]);
    assert s in lists[FREELIST] ==> MayList(c, FREELIST, s);
    FirstOnRing(pg, n + 9, 0, lists[FREELIST]);
  }

  lemma PushedLists(n: nat, pg: seq<Page>, c: seq<Cell>, lists: seq<seq<nat>>, s: nat)
    requires |pg| == n + 10 && |c| == n && ListsOk(n, pg, c, lists) && FreeHead(c, s) && s !in lists[FREELIST]
    requires 0 <= pg[n + 9].next < |pg|
    ensures ListsOk(n, Pushed(pg, n + 9, 0, s), c, lists[FREELIST := [s] + lists[FREELIST]])
  {
    var fs, pg', lists' := lists[FREELIST], Pushed(pg, n + 9, 0, s), lists[FREELIST := [s] + lists[FREELIST]];
    assert ListOk(n, pg, c, FREELIST, fs);
    FirstOnRing(pg, n + 9, 0, fs);
    PushChain(pg, n + 9, 0, fs, s);
    forall l | 0 <= l < 10 ensures ListOk(n, pg', c, l, lists'[l]) {
      assert ListOk(n, pg, c, l, lists[l]);
      if l != FREELIST { PushOther(n, pg, c, l, lists[l], s, fs); }
    }
  }

  lemma PushOther(n: nat, pg: seq<Page>, c: seq<Cell>, l: nat, xs: seq<nat>, s: nat, fs: seq<nat>)
    requires |pg| == n + 10 && |c| == n && s < n && FreeHead(c, s) && l < FREELIST
    requires ListOk(n, pg, c, l, xs)
    requires ListOk(n, pg, c, FREELIST, fs) && OnRing(n + 9, fs, pg[n + 9].next) && 0 <= pg[n + 9].next < |pg|
    ensures ListOk(n, Pushed(pg, n + 9, 0, s), c, l, xs)
  {
    var pg' := Pushed(pg, n + 9, 0, s);
    forall x | OnRing(n + l, xs, x)
      ensures 0 <= x < |pg| && pg'[x].next == pg[x].next && pg'[x].prev == pg[x].prev
    {
      ListsApart(n, pg, c, l, xs, FREELIST, fs, x);
      assert x in xs ==> MayList(c, l, x);
    }
    ListFrame(n, pg, pg', c, c, l, xs);
  }

  lemma ClosedPage(n: nat, pg: seq<Page>, c: seq<Cell>, lists: seq<seq<nat>>, s: nat, e: nat, p: nat, q: int)
    requires HoleInv(n, pg, c, lists, s, e) && p < n && (s <= p < e || PageOk(pg, c, lists, p))
    requires q == PointBack(pg, s, e)[n + 9].next && OnRing(n + 9, lists[FREELIST], q) && 0 <= q < |pg|
    ensures PageOk(Pushed(PointBack(pg, s, e), n + 9, 0, s), Paint(c, s, e - s, Free),
                   lists[FREELIST := [s] + lists[FREELIST]], p)
  {
    assert ListOk(n, pg, c, FREELIST, lists[FREELIST]);
    assert q in lists[FREELIST] ==> MayList(c, FREELIST, q);
  }

  /** The test that freeing applies to the run behind the hole recognises exactly the free runs. */
  lemma JoinTest(n: nat, pg: seq<Page>, c: seq<Cell>, lists: seq<seq<nat>>, s: nat, e: nat, x: nat)
    requires HoleInv(n, pg, c, lists, s, e) && x < n && !(s <= x < e) && c[x].head == x
    ensures pg[x].prev % 4 == 0 && pg[x].next != NULL <==> c[x].kind.Free?
    ensures c[x].kind.Free? ==> pg[x].slab == c[x].len
  {
    assert PageOk(pg, c, lists, x);
    if c[x].kind.Free? {
      var k := FreeAt(n, pg, c, lists, s, e, x);
      assert ListOk(n, pg, c, FREELIST, lists[FREELIST]);
      NeighboursOnRing(pg, n + 9, 0, lists[FREELIST], k);
    }
  }

  /** The last page before the hole leads back to its run's first page, if that run is free, and the test
      recognises exactly the free runs. */
  lemma BackTest(n: nat, pg: seq<Page>, c: seq<Cell>, lists: seq<seq<nat>>, s: nat, e: nat)
    requires HoleInv(n, pg, c, lists, s, e) && s > 0 && c[s - 1].head + c[s - 1].len == s && s <= |pg|
    ensures pg[s - 1].prev % 4 == 0 <==> !c[s - 1].kind.Chunked?
    ensures !c[s - 1].kind.Chunked? ==>
      var h := if pg[s - 1].slab == 0 then Target(pg[s - 1].prev) else s - 1;
      && 0 <= h < s && (c[s - 1].kind.Free? ==> h == c[s - 1].head && c[h] == c[s - 1] && pg[h].slab == c[h].len)
      && (pg[h].next != NULL <==> c[s - 1].kind.Free?)
  {
    HeadIsOwn(c, s - 1);
    assert InRun(c[s - 1], s - 1);
    assert PageOk(pg, c, lists, s - 1);
    if c[s - 1].kind.Free? { JoinTest(n, pg, c, lists, s, e, c[s - 1].head); }
  }

  lemma FreedPagesCount(c: seq<Cell>, a: nat)
    requires Tiled(c) && a < |c| && c[a].head == a && !c[a].kind.Free?
    ensures FreePages(FreeCells(c, a)) == FreePages(c) + c[a].len
  {
    FreedExactly(c, a);
    forall q | a <= q < a + c[a].len ensures c[q] == c[a] { SameRun(c, a, q); }
    FreePagesChange(c, FreeCells(c, a), a, a + c[a].len, false, true);
  }

  lemma TakenPagesCount(c: seq<Cell>, a: nat, want: nat)
    requires Tiled(c) && FreeHead(c, a) && 0 < want <= c[a].len
    ensures FreePages(AllocCells(c, a, want)) == FreePages(c) - want
  {
    forall q | a <= q < a + c[a].len ensures c[q] == c[a] { SameRun(c, a, q); }
    FreePagesChange(c, AllocCells(c, a, want), a, a + want, true, false);
  }

  /** What freeing needs to know about the tiling. */
  lemma FreeingFacts(c: seq<Cell>, a: nat)
    requires Tiled(c) && Coalesced(c) && a < |c| && c[a].head == a && !c[a].kind.Free?
    ensures FreePages(FreeCells(c, a)) == FreePages(c) + c[a].len
    ensures a > 0 ==> c[a - 1].head + c[a - 1].len == a
    ensures a + c[a].len < |c| ==> c[a + c[a].len].head == a + c[a].len
    ensures forall q {:trigger FreeCells(c, a)[q]} :: 0 <= q < |c| && FreeCells(c, a)[q].kind.Chunked? ==>
      FreeCells(c, a)[q] == c[q] && q != a
  {
    FreedExactly(c, a);
    FreedPagesCount(c, a);
    if a > 0 { RunBefore(c, a); }
    if a + c[a].len < |c| { RunAfter(c, a); }
    assert InRun(c[a], a);
  }

  /** The region that the two joining steps delimit is the one freeing paints, and no free run touches it. */
  lemma FreeingPaints(c: seq<Cell>, a: nat, s: nat, e: nat)
    requires Tiled(c) && Coalesced(c) && a < |c| && c[a].head == a
    requires s == if a > 0 && c[a - 1].kind.Free? then c[a - 1].head else a
    requires var m := a + c[a].len; e == if m < |c| && c[m].kind.Free? then m + c[m].len else m
    ensures s < e <= |c| && FreeCells(c, a) == Paint(c, s, e - s, Free)
    ensures (s == 0 || !c[s - 1].kind.Free?) && (e == |c| || !c[e].kind.Free?)
  {
    StartIsMaximal(c, a);
    EndIsMaximal(c, a);
    if a + c[a].len < |c| { RunAfter(c, a); }
    assert InRun(c[a], a);
  }

  /** A page's type bits tell whether it belongs to a slot. */
  lemma TypeTest(n: nat, pg: seq<Page>, c: seq<Cell>, lists: seq<seq<nat>>, p: nat)
    requires PageInv(n, pg, c, lists) && p < n
    ensures pg[p].prev % 4 == (if c[p].kind.Chunked? then TagOf(c[p].kind.slot) else 0)
    ensures pg[p].prev % 4 == 0 <==> !c[p].kind.Chunked?
  {
    assert PageOk(pg, c, lists, p);
    if FreeHead(c, p) {
      assert ListOk(n, pg, c, FREELIST, lists[FREELIST]);
      var k :| 0 <= k < |lists[FREELIST]| && lists[FREELIST][k] == p;
      NeighboursOnRing(pg, n + 9, 0, lists[FREELIST], k);
    }
  }
}
