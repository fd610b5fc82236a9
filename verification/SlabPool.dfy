/** The slab pool: chunks of nine sizes cut out of single pages, and whole pages, over the page layer. */
module SlabAllocator {
  import opened Words
  import opened Tiles
  import opened PageLists
  import opened PageLayer
  import opened SlotSteps
  import opened ChunkLayer
  import opened LiveBlocks
  import opened PoolInvariant

  /** Page structures 0 to n-1 describe the pages, n to n+8 are the heads of the slot lists, and n+9 is
      the head of the free list. Page `p` holds the words 512*p to 512*p+511 of `mem`. */
  class SlabPool {
    const n: nat
    const node: array<Page>
    const mem: array<Word>
    const stats: array<Stat>
    const start: nat   // address of the first page
    const limit: nat   // end of the pool, as an offset from there
    var pfree: nat

    ghost var cells: seq<Cell>
    ghost var lists: seq<seq<nat>>
    ghost var taken: seq<set<nat>>

    /** Lays the pool out between address `p`, behind the slot heads and counters, and `end`. */
    constructor (p: nat, end: nat)
      requires p <= end && RoughPages(p, end) < 0x8000_0000 && PagesFor(p, end) > 0
      ensures Valid() && n == PagesFor(p, end)
      ensures p + n * 24 <= start < p + (n + 1) * 24 + 4096 && start + limit == end
      ensures forall m: nat {:trigger 24 * m} :: 24 * m + 4096 * m <= end - p ==> m <= n + 1
      ensures forall s {:trigger stats[s]} :: 0 <= s < 9 ==> stats[s] == Stat(0, 0, 0, 0)
      ensures forall b {:trigger IsLive(cells, taken, b)} :: !IsLive(cells, taken, b)
      ensures pfree == n && fresh(node) && fresh(mem) && fresh(stats)
    {
      PagesFit(p, end);
      var pages := PagesFor(p, end);
      n := pages;
      start := AlignUp(p + RoughPages(p, end) * PAGESTRUCT);
      limit := end - AlignUp(p + RoughPages(p, end) * PAGESTRUCT);
      node := new Page[pages + 10](i =>
        if i == 0 then Page(pages, pages + 9, Addr(pages + 9))
        else if i < pages then Page(0, NULL, 0)
        else if i < pages + 9 then Page(0, i, 0)
        else Page(0, 0, 0));
      mem := new Word[512 * pages];
      stats := new Stat[SLOTS](_ => Stat(0, 0, 0, 0));
      pfree := pages;
      cells := seq(pages, _ => Cell(0, pages, Free));
      taken := seq(pages, _ => {});
      lists := NOLISTS;
      new;
      FreshIsValid(n, node[..], mem[..], stats[..], cells, taken);
    }

    ghost predicate PagesValid()
      reads this, node
    {
      node.Length == n + 10 && PageInv(n, node[..], cells, lists) && pfree == FreePages(cells)
    }

    /** Joins the neighbours of structure `x` on its list. */
    method Unlink(x: nat)
      requires node.Length == n + 10 && x < node.Length
      requires 0 <= Target(node[x].prev) < node.Length && 0 <= node[x].next < node.Length
      modifies node
      ensures node[..] == Unlinked(old(node[..]), x)
    {
      var prev := Target(node[x].prev);
      node[prev] := node[prev].(next := node[x].next);
      var next := node[x].next;
      node[next] := node[next].(prev := node[x].prev);
    }

    /** Marks the pages of an allocated run behind its first. */
    method MarkBusy(first: nat, count: nat)
      requires node.Length == n + 10 && first + count <= n
      modifies node
      ensures forall y :: 0 <= y < n + 10 ==>
        node[y] == if first <= y < first + count then Page(BUSY, NULL, 0) else old(node[y])
    {
      var p := first;
      while p < first + count
        invariant first <= p <= first + count
        invariant forall y :: 0 <= y < n + 10 ==>
          node[y] == if first <= y < p then Page(BUSY, NULL, 0) else old(node[y])
      {
        node[p] := Page(BUSY, NULL, 0);
        p := p + 1;
      }
    }

    /** Cuts `want` pages off the free run of `len` pages at `page`, which is between `p` and `q` on the list. */
    method CutRun(page: nat, want: nat)
      requires node.Length == n + 10 && page < n && 0 < want <= node[page].slab && page + node[page].slab <= n
      requires 0 <= Target(node[page].prev) < n + 10 && 0 <= node[page].next < n + 10
      requires !(page <= Target(node[page].prev) < page + node[page].slab)
      requires !(page <= node[page].next < page + node[page].slab)
      modifies node
      ensures want < old(node[page].slab) ==> SplitTo(n, old(node[..]), node[..], page, old(node[page].slab), want)
      ensures want == old(node[page].slab) ==> TakeTo(n, old(node[..]), node[..], page, want)
      ensures node[page] == Page(0x8000_0000_0000_0000 + want, NULL, 0)
    {
      var len := node[page].slab;
      if len > want {
        node[page + len - 1] := node[page + len - 1].(prev := Addr(page + want));
        node[page + want] := Page(len - want, node[page].next, node[page].prev);
        var p := Target(node[page].prev);
        node[p] := node[p].(next := page + want);
        var q := node[page].next;
        node[q] := node[q].(prev := Addr(page + want));
      } else {
        Unlink(page);
      }
      node[page] := Page(START + want, NULL, 0);
      MarkBusy(page + 1, want - 1);
    }

    /** Takes the first `want` pages of the free run at `page`, position `k` of the free list. */
    method TakePages(page: nat, want: nat, ghost k: nat)
      requires PagesValid() && k < |lists[FREELIST]| && page == lists[FREELIST][k]
      requires FreeHead(cells, page) && 0 < want <= cells[page].len
      modifies node, `pfree, `cells, `lists
      ensures PagesValid()
      ensures cells == AllocCells(old(cells), page, want) && pfree == old(pfree) - want
      ensures node[page] == Page(0x8000_0000_0000_0000 + want, NULL, 0)
      ensures SameSlots(old(lists), lists)
      ensures SlabsKept(cells, old(node[..]), node[..], NULL)
    {
      ghost var was := node[..];
      FreeNeighbours(n, was, cells, lists, k);
      TakenPagesCount(cells, page, want);
      ghost var len := node[page].slab;
      BesideApart(n, cells, page, Target(node[page].prev));
      BesideApart(n, cells, page, node[page].next);
      CutRun(page, want);
      pfree := pfree - want;
      if len > want {
        lists := SplitKeeps(n, was, node[..], cells, lists, k, page, want);
      } else {
        lists := TakeKeeps(n, was, node[..], cells, lists, k, page);
      }
      cells := AllocCells(cells, page, want);
    }

    /** Takes `want` pages from the first free run that is large enough. */
    method AllocPages(want: nat) returns (page: int)
      requires PagesValid() && 0 < want < U32
      modifies node, `pfree, `cells, `lists
      ensures PagesValid()
      ensures page == NULL <==> forall a {:trigger FreeHead(old(cells), a)} ::
          FreeHead(old(cells), a) ==> old(cells)[a].len < want
      ensures page == NULL ==> node[..] == old(node[..]) && cells == old(cells) && lists == old(lists)
      ensures page == NULL ==> pfree == old(pfree)
      ensures page != NULL ==> 0 <= page < n && FreeHead(old(cells), page) && want <= old(cells)[page].len
      ensures page != NULL ==> cells == AllocCells(old(cells), page, want) && pfree == old(pfree) - want
      ensures page != NULL ==> FirstFit(old(cells), old(lists)[FREELIST], want, page)
      ensures page != NULL ==> node[page] == Page(0x8000_0000_0000_0000 + want, NULL, 0)
      ensures SameSlots(old(lists), lists)
      ensures SlabsKept(cells, old(node[..]), node[..], NULL)
    {
      ghost var k, fs := 0, lists[FREELIST];
      assert ListOk(n, node[..], cells, FREELIST, fs);
      FirstOnRing(node[..], n + 9, 0, fs);
      forall j | 0 <= j < |fs| ensures fs[j] < n {
        assert fs[j] in fs;
        assert MayList(cells, FREELIST, fs[j]);
      }
      page := node[n + 9].next;
      while page != n + 9
        invariant 0 <= k <= |fs| && page == if k == |fs| then n + 9 else fs[k]
        invariant forall j :: 0 <= j < |fs| ==> fs[j] < n
        invariant forall j :: 0 <= j < k ==> fs[j] < |cells| && cells[fs[j]].len < want
        invariant PagesValid() && node[..] == old(node[..])
        invariant cells == old(cells) && lists == old(lists) && pfree == old(pfree)
        decreases |fs| - k
      {
        FreeNeighbours(n, node[..], cells, lists, k);
        if node[page].slab >= want {
          TakePages(page, want, k);
          return;
        }
        NextOnRing(node[..], n + 9, 0, fs, k);
        k := k + 1;
        page := node[page].next;
      }
      page := NULL;
      forall a | FreeHead(cells, a) ensures cells[a].len < want {
        var j :| 0 <= j < |fs| && fs[j] == a;
      }
    }

    /** The first part of freeing: the run's size is written, the pages behind its first are cleared, and a
        slot's page leaves its list. */
    method OpenRun(page: nat, pages: nat)
      requires node.Length == n + 10 && PageInv(n, node[..], cells, lists)
      requires page < n && cells[page].head == page && !cells[page].kind.Free? && pages == cells[page].len
      modifies node, `lists
      ensures node.Length == n + 10 && page + pages <= n
      ensures HoleInv(n, node[..], cells, lists, page, page + pages)
      ensures SlotsWithout(old(lists), lists, page)
      ensures SlabsKept(cells, old(node[..]), node[..], page)
    {
      ghost var was := node[..];
      assert PageOk(was, cells, lists, page);
      node[page] := node[page].(slab := pages);
      var i := page + 1;
      while i < page + pages
        modifies node
        invariant page < i <= page + pages
        invariant forall y :: 0 <= y < n + 10 ==>
          node[y] == if y == page then was[page].(slab := pages) else if page < y < i then Page(0, NULL, 0) else was[y]
      {
        node[i] := Page(0, NULL, 0);
        i := i + 1;
      }
      forall q | page <= q < page + pages ensures cells[q] == cells[page] { SameRun(cells, page, q); }
      if node[page].next != NULL {
        ghost var k, ys := HoleOpensListed(n, was, cells, lists, page);
        assert node[..] == was[page := was[page].(slab := 1)];
        Unlink(page);
        lists := lists[cells[page].kind.slot := ys];
      } else {
        HoleOpens(n, was, node[..], cells, lists, page, page + pages);
      }
    }

    /** Joins the freed run with the free run behind it. */
    method JoinNext(page: nat, ghost next: nat) returns (end: nat)
      requires node.Length == n + 10 && page < n && HoleInv(n, node[..], cells, lists, page, next)
      requires next < n ==> cells[next].head == next
      modifies node, `lists
      ensures end == if next < n && cells[next].kind.Free? then next + cells[next].len else next
      ensures page < end <= n && HoleInv(n, node[..], cells, lists, page, end)
      ensures SameSlots(old(lists), lists)
      ensures SlabsKept(cells, old(node[..]), node[..], page)
    {
      ghost var was := node[..];
      assert was[page].slab == next - page;
      var join := page + node[page].slab;
      end := join;
      if join < n {
        JoinTest(n, was, cells, lists, page, join, join);
        if node[join].prev % 4 == 0 {
          if node[join].next != NULL {
            ghost var k, ys := HoleJoinsRight(n, was, cells, lists, page, join);
            end := join + node[join].slab;
            node[page] := node[page].(slab := node[page].slab + node[join].slab);
            Unlink(join);
            node[join] := Page(0, NULL, 0);
            lists := lists[FREELIST := ys];
          }
        }
      }
    }

    /** Joins the freed run with the free run before it. */
    method JoinPrevious(page: nat, ghost end: nat) returns (start: nat)
      requires node.Length == n + 10 && page < n && HoleInv(n, node[..], cells, lists, page, end)
      requires page > 0 ==> cells[page - 1].head + cells[page - 1].len == page
      modifies node, `lists
      ensures start == if page > 0 && cells[page - 1].kind.Free? then cells[page - 1].head else page
      ensures start <= page && HoleInv(n, node[..], cells, lists, start, end)
      ensures SameSlots(old(lists), lists)
      ensures SlabsKept(cells, old(node[..]), node[..], page)
    {
      ghost var was := node[..];
      assert was[page].slab == end - page;
      start := page;
      if page > 0 {
        var join := page - 1;
        BackTest(n, was, cells, lists, page, end);
        if node[join].prev % 4 == 0 {
          if node[join].slab == 0 {
            join := Target(node[join].prev);
          }
          if node[join].next != NULL {
            ghost var k, ys := HoleJoinsLeft(n, was, cells, lists, page, end, join);
            node[join] := node[join].(slab := node[join].slab + node[page].slab);
            Unlink(join);
            node[page] := Page(0, NULL, 0);
            lists := lists[FREELIST := ys];
            start := join;
          }
        }
      }
    }

    /** Frees the allocated run at `page`, joining it with the free runs on both sides. */
    method FreeRun(page: nat, pages: nat)
      requires PagesValid() && page < n && cells[page].head == page && !cells[page].kind.Free?
      requires pages == cells[page].len
      modifies node, `pfree, `cells, `lists
      ensures PagesValid()
      ensures cells == FreeCells(old(cells), page) && pfree == old(pfree) + pages
      ensures SlotsWithout(old(lists), lists, page)
      ensures SlabsKept(cells, old(node[..]), node[..], NULL)
    {
      ghost var c := cells;
      FreeingFacts(c, page);
      pfree := pfree + pages;
      OpenRun(page, pages);
      CloseRun(page, pages);
      cells := FreeCells(c, page);
    }

    /** The freed run joins its free neighbours and goes on the free list. */
    method CloseRun(page: nat, ghost pages: nat)
      requires node.Length == n + 10 && page < n && HoleInv(n, node[..], cells, lists, page, page + pages)
      requires cells[page].head == page && pages == cells[page].len
      requires page > 0 ==> cells[page - 1].head + cells[page - 1].len == page
      requires page + pages < n ==> cells[page + pages].head == page + pages
      modifies node, `lists
      ensures PageInv(n, node[..], FreeCells(cells, page), lists)
      ensures SameSlots(old(lists), lists)
      ensures SlabsKept(cells, old(node[..]), node[..], page)
    {
      hide HoleInv, PageInv, FreeCells;
      var start, end := JoinBoth(page, page + pages);
      FreeingPaints(cells, page, start, end);
      PushRun(start, end);
    }

    method JoinBoth(page: nat, ghost next: nat) returns (start: nat, end: nat)
      requires node.Length == n + 10 && page < n && HoleInv(n, node[..], cells, lists, page, next)
      requires page > 0 ==> cells[page - 1].head + cells[page - 1].len == page
      requires next < n ==> cells[next].head == next
      modifies node, `lists
      ensures start == if page > 0 && cells[page - 1].kind.Free? then cells[page - 1].head else page
      ensures end == if next < n && cells[next].kind.Free? then next + cells[next].len else next
      ensures HoleInv(n, node[..], cells, lists, start, end)
      ensures SameSlots(old(lists), lists)
      ensures SlabsKept(cells, old(node[..]), node[..], page)
    {
      end := JoinNext(page, next);
      start := JoinPrevious(page, end);
    }

    /** The last part of freeing: the joined run goes to the front of the free list. */
    method PushRun(start: nat, end: nat)
      requires node.Length == n + 10 && HoleInv(n, node[..], cells, lists, start, end)
      requires (start == 0 || !cells[start - 1].kind.Free?) && (end == n || !cells[end].kind.Free?)
      modifies node, `lists
      ensures PageInv(n, node[..], Paint(cells, start, end - start, Free), lists)
      ensures SameSlots(old(lists), lists)
      ensures SlabsKept(cells, old(node[..]), node[..], NULL)
    {
      HoleCloses(n, node[..], cells, lists, start, end);
      if end - start > 1 {
        node[end - 1] := node[end - 1].(prev := Addr(start));
      }
      ghost var pg := node[..];
      assert pg == PointBack(old(node[..]), start, end);
      node[start] := node[start].(prev := Addr(n + 9), next := node[n + 9].next);
      var first := node[start].next;
      node[first] := node[first].(prev := Addr(start));
      node[n + 9] := node[n + 9].(next := start);
      assert node[..] == Pushed(pg, n + 9, 0, start);
      lists := lists[FREELIST := [start] + lists[FREELIST]];
    }

    /** The whole invariant. The pages are aligned, and lie between `start` and the pool's end. */
    ghost predicate Valid()
      reads this, node, mem, stats
    {
      && PagesValid() && mem.Length == 512 * n && stats.Length == SLOTS && PAGESIZE * n <= limit
          && start % PAGESIZE == 0
      && ChunkInv(n, node[..], mem[..], cells, lists, taken)
      && StatsOk(stats[..], cells, taken)
    }

    /** Chunk `i` of page `p`, free before, is the only thing that was handed out. */
    twostate predicate OnlyTook(p: nat, i: nat)
      reads this
    {
      && cells == old(cells) && p < |old(taken)| && i !in old(taken)[p]
      && taken == old(taken)[p := old(taken)[p] + {i}]
    }

    /** A page that has become full leaves its slot list. */
    method LeaveList(page: nat, slot: nat)
      requires node.Length == n + 10 && PageInv(n, node[..], cells, lists) && slot < SLOTS && page in lists[slot]
      modifies node, `lists
      ensures PageInv(n, node[..], cells, lists)
      ensures SlotsWithout(old(lists), lists, page)
      ensures SlabsKept(cells, old(node[..]), node[..], NULL)
    {
      ghost var was := node[..];
      ghost var ys := LeaveSlot(n, was, cells, lists, slot, page);
      ghost var slots := lists;
      Unlink(page);
      node[page] := Page(node[page].slab, NULL, TagOf(slot));
      assert node[..] == Unlinked(was, page)[page := Page(was[page].slab, NULL, TagOf(slot))];
      lists := lists[slot := ys];
      forall s, q: nat | 0 <= s < FREELIST ensures q in lists[s] <==> q in slots[s] && q != page {
        assert ListOk(n, was, cells, s, slots[s]);
        assert q in slots[s] ==> MayList(cells, s, q);
      }
    }

    /** After a chunk of the page is marked and counted: a page that is full leaves its list. */
    method Settle(page: nat, slot: nat, full: bool)
      requires Marking(n, node[..], mem[..], cells, lists, taken, page, slot) && node.Length == n + 10
      requires full <==> !HasRoom(slot, taken[page])
      modifies node, `lists
      ensures PageInv(n, node[..], cells, lists) && ChunkInv(n, node[..], mem[..], cells, lists, taken)
    {
      ghost var was, slots := node[..], lists;
      if full {
        LeaveList(page, slot);
        LeaveKeeps(n, was, node[..], mem[..], cells, slots, lists, taken, page, slot);
      } else {
        StayKeeps(n, was, mem[..], cells, lists, taken, page, slot);
      }
    }

    /** Searches a small page's bitmap for its first clear bit. */
    method FindClear(page: nat, slot: nat) returns (w: nat, j: nat)
      requires slot < 3 && 512 * page + 512 <= mem.Length
      ensures w <= MapWords(slot) <= 8
      ensures forall k: nat {:trigger WordAt(mem[..], page, k)} :: k < w ==> WordAt(mem[..], page, k) == BUSY
      ensures w < MapWords(slot) ==>
          j < 64 && !Bit(mem[512 * page + w], j) && forall k: nat {:trigger Bit(WordAt(mem[..], page, w), k)} ::
          k < j ==> Bit(WordAt(mem[..], page, w), k)
    {
      Tables(slot);
      w, j := 0, 0;
      while w < MapWords(slot)
        invariant 0 <= w <= MapWords(slot)
        invariant forall k: nat {:trigger WordAt(mem[..], page, k)} :: k < w ==> WordAt(mem[..], page, k) == BUSY
      {
        if mem[512 * page + w] != BUSY {
          var word := mem[512 * page + w];
          j := 0;
          while j < 64
            invariant 0 <= j <= 64
            invariant forall k: nat :: k < j ==> Bit(word, k)
          {
            if !Bit(word, j) {
              return;
            }
            j := j + 1;
          }
          WordIsFull(word);
        }
        w := w + 1;
      }
    }

    /** Tests that the bitmap words behind `w` are all ones. */
    method RestFull(page: nat, slot: nat, w: nat) returns (full: bool)
      requires slot < 3 && 512 * page + 512 <= mem.Length && w < MapWords(slot) <= 8
      ensures full <==> WordsFull(slot, mem[..], page, w + 1)
    {
      full := true;
      var k := w + 1;
      while k < MapWords(slot)
        invariant w < k <= MapWords(slot)
        invariant forall q: nat {:trigger WordAt(mem[..], page, q)} :: w < q < k ==> WordAt(mem[..], page, q) == BUSY
      {
        if mem[512 * page + k] != BUSY {
          assert WordAt(mem[..], page, k) != BUSY;
          full := false;
          return;
        }
        k := k + 1;
      }
    }

    /** Marks bit `j` of bitmap word `w` of a small page and counts the chunk. */
    method MarkSmall(page: nat, slot: nat, w: nat, j: nat, ghost i: nat)
      requires Valid() && slot < 3 && page in lists[slot] && page < n && cells[page].kind == Chunked(slot)
      requires w < 8 && j < 64 && i == 64 * w + j && Reserved(slot) <= i < Chunks(slot) && i !in taken[page]
      modifies mem, stats, `taken
      ensures mem.Length == 512 * n && stats.Length == SLOTS && node.Length == n + 10
      ensures OnlyTook(page, i) && StatsOk(stats[..], cells, taken)
      ensures Marking(n, node[..], mem[..], cells, lists, taken, page, slot)
      ensures SameRequests(old(stats[..]), stats[..])
      ensures mem[..] == MarkMem(slot, old(mem[..]), page, i) && Harmless(cells, old(mem[..]), mem[..])
    {
      Tables(slot);
      ghost var was, words := node[..], mem[..];
      WordBits(mem[512 * page + w], j);
      BitmapWordHarmless(cells, words, page, w, SetBit(mem[512 * page + w], j));
      mem[512 * page + w] := SetBit(mem[512 * page + w], j);
      stats[slot] := stats[slot].(used := (stats[slot].used + 1) % U32);
      StatsMark(old(stats[..]), cells, taken, page, slot, i, stats[..]);
      assert was == was[page := was[page].(slab := MarkSlab(slot, was[page].slab, i))];
      MarkKeeps(n, was, words, cells, lists, taken, page, slot, i, was, mem[..], taken[page := taken[page] + {i}]);
      taken := taken[page := taken[page] + {i}];
    }

    /** Takes the first free chunk of a small page, whose bitmap is at the start of the page itself. */
    method TakeSmall(page: nat, slot: nat) returns (addr: int, ghost i: nat)
      requires Valid() && slot < 3 && page in lists[slot]
      modifies node, mem, stats, `lists, `taken
      ensures Valid() && OnlyTook(page, i) && FirstFree(slot, old(taken)[page], i)
      ensures SameRequests(old(stats[..]), stats[..])
      ensures page < n && cells[page].kind == Chunked(slot) && addr == Address(Chunk(page, slot, i))
      ensures Harmless(cells, old(mem[..]), mem[..])
    {
      assert ListOk(n, node[..], cells, slot, lists[slot]);
      assert MayList(cells, slot, page);
      assert ChunkOk(node[..], mem[..], cells, lists, taken, page);
      Tables(slot);
      FullTest(slot, node[page].slab, mem[..], page, taken[page]);
      var w, j := FindClear(page, slot);
      i := 64 * w + j;
      FirstIsFree(slot, node[page].slab, mem[..], page, taken[page], w, j);
      MarkSmall(page, slot, w, j, i);
      addr := PAGESIZE * page + (64 * w + j) * Size(slot);
      var full := false;
      FullTest(slot, node[page].slab, mem[..], page, taken[page]);
      FirstWords(slot, old(mem[..]), mem[..], page, w, j);
      if mem[512 * page + w] == BUSY {
        full := RestFull(page, slot, w);
      }
      Settle(page, slot, full);
    }

    /** Takes the first free chunk of a page of the exact slot, whose marks fill its `slab` word. */
    method TakeExact(page: nat) returns (addr: int, ghost i: nat)
      requires Valid() && page in lists[3]
      modifies node, stats, `lists, `taken
      ensures Valid() && OnlyTook(page, i) && FirstFree(3, old(taken)[page], i)
      ensures SameRequests(old(stats[..]), stats[..])
      ensures page < n && cells[page].kind == Chunked(3) && addr == Address(Chunk(page, 3, i))
    {
      assert ListOk(n, node[..], cells, 3, lists[3]);
      assert MayList(cells, 3, page);
      assert ChunkOk(node[..], mem[..], cells, lists, taken, page);
      Tables(3);
      FullTest(3, node[page].slab, mem[..], page, taken[page]);
      var j := 0;
      while j < 64 && Bit(node[page].slab, j)
        invariant 0 <= j <= 64
        invariant forall k: nat {:trigger Marked(3, node[page].slab, mem[..], page, k)} :: k < j ==>
          Marked(3, node[page].slab, mem[..], page, k)
      {
        assert Marked(3, node[page].slab, mem[..], page, j);
        j := j + 1;
      }
      if j == 64 {
        forall k: nat | k < Chunks(3) ensures k in taken[page] { assert Marked(3, node[page].slab, mem[..], page, k); }
      }
      i := j;
      SlabFirstFree(3, node[page].slab, mem[..], page, taken[page], j);
      MarkWord(page, 3, j);
      FullTest(3, node[page].slab, mem[..], page, taken[page]);
      Settle(page, 3, node[page].slab == BUSY);
      addr := PAGESIZE * page + j * Size(3);
    }

    /** Takes the first free chunk of a page of a big slot, whose marks are the upper half of its `slab` word. */
    method TakeBig(page: nat, slot: nat) returns (addr: int, ghost i: nat)
      requires Valid() && 3 < slot < SLOTS && page in lists[slot]
      modifies node, stats, `lists, `taken
      ensures Valid() && OnlyTook(page, i) && FirstFree(slot, old(taken)[page], i)
      ensures SameRequests(old(stats[..]), stats[..])
      ensures page < n && cells[page].kind == Chunked(slot) && addr == Address(Chunk(page, slot, i))
    {
      assert ListOk(n, node[..], cells, slot, lists[slot]);
      assert MayList(cells, slot, page);
      assert ChunkOk(node[..], mem[..], cells, lists, taken, page);
      Tables(slot);
      FullTest(slot, node[page].slab, mem[..], page, taken[page]);
      var j := 0;
      while j < Chunks(slot) && Bit(node[page].slab, 32 + j)
        invariant 0 <= j <= Chunks(slot)
        invariant forall k: nat {:trigger Marked(slot, node[page].slab, mem[..], page, k)} :: k < j ==>
          Marked(slot, node[page].slab, mem[..], page, k)
      {
        assert Marked(slot, node[page].slab, mem[..], page, j);
        j := j + 1;
      }
      if j == Chunks(slot) {
        forall k: nat | k < Chunks(slot) ensures k in taken[page] {
          assert Marked(slot, node[page].slab, mem[..], page, k);
        }
      }
      i := j;
      SlabFirstFree(slot, node[page].slab, mem[..], page, taken[page], j);
      MarkWord(page, slot, j);
      FullTest(slot, node[page].slab, mem[..], page, taken[page]);
      Settle(page, slot, Shr(node[page].slab, 32) == Pow2(Chunks(slot)) - 1);
      addr := PAGESIZE * page + j * Size(slot);
    }

    /** Marks chunk `i` in the `slab` word of an exact or big page and counts it. */
    method MarkWord(page: nat, slot: nat, i: nat)
      requires Valid() && 3 <= slot < SLOTS && page in lists[slot] && page < n && cells[page].kind == Chunked(slot)
      requires i < Chunks(slot) && i !in taken[page]
      modifies node, stats, `taken
      ensures mem.Length == 512 * n && stats.Length == SLOTS && node.Length == n + 10
      ensures OnlyTook(page, i) && StatsOk(stats[..], cells, taken)
      ensures SameRequests(old(stats[..]), stats[..])
      ensures Marking(n, node[..], mem[..], cells, lists, taken, page, slot)
    {
      ghost var was := node[..];
      node[page] := node[page].(slab := MarkSlab(slot, node[page].slab, i));
      stats[slot] := stats[slot].(used := (stats[slot].used + 1) % U32);
      StatsMark(old(stats[..]), cells, taken, page, slot, i, stats[..]);
      MarkKeeps(n, was, mem[..], cells, lists, taken, page, slot, i, node[..], mem[..],
          taken[page := taken[page] + {i}]);
      taken := taken[page := taken[page] + {i}];
    }

    /** Writes the first bitmap of a small page. */
    method StartBitmap(page: nat, slot: nat)
      requires mem.Length == 512 * n && page < n && slot < 3
      modifies mem
      ensures PageBits(slot, slot + 3, mem[..], page, {Reserved(slot)}) && HasRoom(slot, {Reserved(slot)})
      ensures forall k: nat {:trigger mem[..][k]} ::
          k < 512 * n && !(512 * page <= k < 512 * page + 512) ==> mem[..][k] == old(mem[..])[k]
    {
      Tables(slot);
      SmallFirstWord(slot);
      mem[512 * page] := Pow2(Reserved(slot) + 1) - 1;
      var i := 1;
      while i < MapWords(slot)
        invariant 1 <= i <= MapWords(slot)
        invariant mem[512 * page] == Pow2(Reserved(slot) + 1) - 1
        invariant forall k :: 512 * page + 1 <= k < 512 * page + i ==> mem[k] == 0
        invariant forall k :: 0 <= k < 512 * n && !(512 * page <= k < 512 * page + 512) ==> mem[k] == old(mem[k])
      {
        mem[512 * page + i] := 0;
        i := i + 1;
      }
      NewSmall(slot, slot + 3, mem[..], page);
    }

    /** Turns page `p`, just allocated, into the slot's only page, with its first chunk handed out. */
    method FillPage(p: nat, slot: nat)
      requires node.Length == n + 10 && mem.Length == 512 * n && stats.Length == SLOTS && p < n && slot < SLOTS
      modifies node, mem, stats
      ensures PageBits(slot, node[p].slab, mem[..], p, {Reserved(slot)}) && HasRoom(slot, {Reserved(slot)})
      ensures node[..] == old(node[..])[p := Page(node[p].slab, n + slot, Addr(n + slot) + TagOf(slot))]
                                       [n + slot := old(node[n + slot]).(next := p)]
      ensures forall k: nat {:trigger mem[..][k]} ::
          k < 512 * n && !(512 * p <= k < 512 * p + 512) ==> mem[..][k] == old(mem[..])[k]
      ensures stats[..] == old(stats[..])[slot :=
        old(stats[slot]).(total := (old(stats[slot].total) + Capacity(slot)) % U32,
            used := (old(stats[slot].used) + 1) % U32)]
    {
      Tables(slot);
      if slot < 3 {
        StartBitmap(p, slot);
        node[p] := Page(slot + 3, n + slot, Addr(n + slot) + TagOf(slot));
      } else {
        NewSlab(slot, if slot == 3 then 1 else U32 + slot + 3, mem[..], p);
        node[p] := Page(if slot == 3 then 1 else U32 + slot + 3, n + slot, Addr(n + slot) + TagOf(slot));
      }
      node[n + slot] := node[n + slot].(next := p);
      stats[slot] := stats[slot].(total := (stats[slot].total + Capacity(slot)) % U32);
      stats[slot] := stats[slot].(used := (stats[slot].used + 1) % U32);
    }

    /** Starts a page for the slot, whose list is empty, and hands out its first chunk. */
    method StartPage(p: nat, slot: nat) returns (addr: int)
      requires Valid() && slot < SLOTS && lists[slot] == [] && p < n && cells[p] == Cell(p, 1, Whole)
      modifies node, mem, stats, `cells, `lists, `taken
      ensures Valid() && addr == Address(Chunk(p, slot, Reserved(slot)))
      ensures SameRequests(old(stats[..]), stats[..])
      ensures taken == old(taken)[p := {Reserved(slot)}] && cells == old(cells)[p := Cell(p, 1, Chunked(slot))]
      ensures forall k: nat {:trigger mem[..][k]} ::
        k < 512 * n && !(512 * p <= k < 512 * p + 512) ==> mem[..][k] == old(mem[..])[k]
    {
      FillPage(p, slot);
      addr := PAGESIZE * p + Reserved(slot) * Size(slot);
      StartIsKept(n, old(node[..]), node[..], old(mem[..]), mem[..], cells, lists, taken, p, slot, node[p].slab,
                  old(stats[..]), stats[..]);
      cells := cells[p := Cell(p, 1, Chunked(slot))];
      lists := lists[slot := [p]];
      taken := taken[p := {Reserved(slot)}];
    }

    /** Takes whole pages; the chunk layer does not notice. */
    method TakeRun(want: nat) returns (page: int)
      requires Valid() && 0 < want < U32
      modifies node, `pfree, `cells, `lists
      ensures Valid()
      ensures page == NULL <==> forall a {:trigger FreeHead(old(cells), a)} ::
          FreeHead(old(cells), a) ==> old(cells)[a].len < want
      ensures page == NULL ==> cells == old(cells) && lists == old(lists)
      ensures page != NULL ==> 0 <= page < n && FreeHead(old(cells), page) && want <= old(cells)[page].len
      ensures page != NULL ==> cells == AllocCells(old(cells), page, want)
      ensures page != NULL ==> FirstFit(old(cells), old(lists)[FREELIST], want, page)
      ensures SameSlots(old(lists), lists)
    {
      page := AllocPages(want);
      if page != NULL {
        AllocKeepsChunks(n, old(node[..]), node[..], mem[..], old(cells), old(lists), lists, taken, stats[..], page,
            want);
      }
    }

    /** Finds the slot for a request of at most half a page, by the smallest shift that covers it. */
    method SlotFor(size: nat) returns (slot: nat)
      requires size <= PAGESIZE / 2
      ensures ServedBy(size, slot)
    {
      Pow2Values();
      if size > 8 {
        var shift := 1;
        var s := (size - 1) / 2;
        while s != 0
          invariant shift >= 1 && s == Shr(size - 1, shift) && Shr(size - 1, shift - 1) != 0
          decreases s
        {
          ShrStep(size - 1, shift);
          s := s / 2;
          shift := shift + 1;
        }
        ShrZero(size - 1, shift);
        ShrZero(size - 1, shift - 1);
        ShrZero(size - 1, 3);
        if shift <= 3 { Pow2Grows(shift, 3); }
        if shift > 11 { Pow2Grows(11, shift - 1); }
        slot := shift - 3;
      } else {
        slot := 0;
      }
    }

    /** Allocates `size` bytes. The result is the block's offset from the first page. The block is large enough
        exactly if its pages can be counted in 32 bits. No word of any live block changes. */
    method Alloc(size: nat) returns (addr: int, ghost b: Block)
      requires Valid() && (size > PAGESIZE / 2 ==> PageCount(size) > 0)
      modifies this, node, mem, stats
      ensures Valid()
      ensures addr == NULL ==> cells == old(cells) && taken == old(taken)
      ensures addr == NULL <==> if size <= PAGESIZE / 2 then NoChunkFor(old(cells), old(taken), size)
                                else NoRunFor(old(cells), PageCount(size))
      ensures addr != NULL ==> addr == Address(b) && (BlockFits(b, size) <==> size <= PAGESIZE * (U32 - 1))
      ensures addr != NULL && size > 2048 ==> b.Pages? && b.len == PageCount(size)
      ensures addr != NULL && size <= 2048 ==>
        b.Chunk? && size <= Bytes(b) <= 2048 && (Bytes(b) == 8 || Bytes(b) < 2 * size)
      ensures CountedFor(old(stats[..]), stats[..], size, addr == NULL)
      ensures addr != NULL ==> TookBlock(old(cells), old(taken), cells, taken, b)
      ensures SameWords(old(cells), old(taken), old(mem[..]), mem[..])
    {
      InvShape(n, node[..], mem[..], cells, lists, taken);
      if size > PAGESIZE / 2 {
        PageCountCovers(size);
        HarmlessKeepsWords(cells, taken, mem[..], mem[..]);
        var page := TakeRun(PageCount(size));
        if page != NULL {
          addr, b := PAGESIZE * page, Pages(page, PageCount(size));
          TookRun(old(cells), taken, page, PageCount(size));
        } else {
          addr := NULL;
          b := Pages(0, 0);
        }
        return;
      }
      var slot := SlotFor(size);
      stats[slot] := stats[slot].(reqs := (stats[slot].reqs + 1) % U32);
      addr, b := AllocChunk(slot);
      ServedTightly(size, slot);
      assert CountedFor(old(stats[..]), stats[..], size, addr == NULL) by {
        assert ServedBy(size, slot) && Requested(old(stats[..]), stats[..], slot, true, addr == NULL);
      }
      HarmlessKeepsWords(old(cells), old(taken), old(mem[..]), mem[..]);
      NoChunkAgrees(old(cells), old(taken), size, slot);
    }

    /** Takes the first free chunk of the first page on the slot's list, by the page's type. */
    method TakeChunk(page: nat, slot: nat) returns (addr: int, ghost b: Block)
      requires Valid() && slot < SLOTS && lists[slot] != [] && page == lists[slot][0]
      modifies node, mem, stats, `lists, `taken
      ensures Valid() && addr != NULL && !SlotExhausted(cells, old(taken), slot)
      ensures addr == Address(b) && b.Chunk? && b.slot == slot
      ensures b.page == page < |old(taken)| && FirstFree(slot, old(taken)[page], b.index)
      ensures SameRequests(old(stats[..]), stats[..])
      ensures TookBlock(cells, old(taken), cells, taken, b)
      ensures Harmless(cells, old(mem[..]), mem[..])
    {
      assert ListOk(n, node[..], cells, slot, lists[slot]);
      ListHasRoom(n, node[..], mem[..], cells, lists, taken, slot, page);
      ghost var i: nat;
      if slot < 3 {
        addr, i := TakeSmall(page, slot);
      } else if slot == 3 {
        addr, i := TakeExact(page);
      } else {
        addr, i := TakeBig(page, slot);
      }
      b := Chunk(page, slot, i);
      TookChunk(cells, old(taken), page, slot, i);
    }

    /** Starts a page for the slot, whose list is empty, on the first free page there is, and takes its first chunk. */
    method NewPage(slot: nat) returns (addr: int, ghost b: Block)
      requires Valid() && slot < SLOTS && lists[slot] == []
      modifies node, mem, stats, `pfree, `cells, `lists, `taken
      ensures Valid()
      ensures addr == NULL ==> cells == old(cells) && taken == old(taken)
      ensures addr == NULL <==> SlotExhausted(old(cells), old(taken), slot)
      ensures addr != NULL ==> addr == Address(b) && b.Chunk? && b.slot == slot
      ensures addr != NULL ==>
        b.index == [8, 2, 1, 0, 0, 0, 0, 0, 0][slot] && FirstFit(old(cells), old(lists)[FREELIST], 1, b.page)
      ensures Requested(old(stats[..]), stats[..], slot, false, addr == NULL)
      ensures addr != NULL ==> TookBlock(old(cells), old(taken), cells, taken, b)
      ensures Harmless(old(cells), old(mem[..]), mem[..])
    {
      OnlyTheBitmap(slot);
      EmptyListFull(n, node[..], mem[..], cells, lists, taken, slot);
      var page := TakeRun(1);
      if page != NULL {
        ghost var c1 := cells;
        addr := StartPage(page, slot);
        FreePageHarmless(old(cells), old(mem[..]), mem[..], page);
        b := Chunk(page, slot, Reserved(slot));
        TookFirstChunk(old(cells), old(taken), c1, page, slot, Reserved(slot));
      } else {
        stats[slot] := stats[slot].(fails := (stats[slot].fails + 1) % U32);
        addr, b := NULL, Pages(0, 0);
      }
    }

    /** Takes a chunk from the first page on the slot's list, or starts a page for the slot. */
    method AllocChunk(slot: nat) returns (addr: int, ghost b: Block)
      requires Valid() && slot < SLOTS
      modifies node, mem, stats, `pfree, `cells, `lists, `taken
      ensures Valid()
      ensures addr == NULL ==> cells == old(cells) && taken == old(taken)
      ensures addr == NULL <==> SlotExhausted(old(cells), old(taken), slot)
      ensures addr != NULL ==> addr == Address(b) && b.Chunk? && b.slot == slot
      ensures addr != NULL && old(lists)[slot] != [] ==>
        b.page == old(lists)[slot][0] < |old(taken)| && FirstFree(slot, old(taken)[b.page], b.index)
      ensures addr != NULL && old(lists)[slot] == [] ==>
        b.index == [8, 2, 1, 0, 0, 0, 0, 0, 0][slot] && FirstFit(old(cells), old(lists)[FREELIST], 1, b.page)
      ensures Requested(old(stats[..]), stats[..], slot, false, addr == NULL)
      ensures addr != NULL ==> TookBlock(old(cells), old(taken), cells, taken, b)
      ensures Harmless(old(cells), old(mem[..]), mem[..])
    {
      assert ListOk(n, node[..], cells, slot, lists[slot]);
      EmptyListTest(node[..], n + slot, TagOf(slot), lists[slot]);
      FirstOnRing(node[..], n + slot, TagOf(slot), lists[slot]);
      hide PageInv, ChunkInv, ChunkInvBut, StatsOk, TookBlock, Harmless, SlotExhausted, FirstFree, FirstFit, Address;
      var page := node[n + slot].next;
      if node[page].next != page {
        addr, b := TakeChunk(page, slot);
      } else {
        addr, b := NewPage(slot);
      }
    }

    /** Links a page in behind a slot's list head. */
    method PushPage(page: nat, slot: nat)
      requires slot < SLOTS && page < n && node.Length == n + 10 && 0 <= node[n + slot].next < n + 10
      modifies node
      ensures node[..] == Pushed(old(node[..]), n + slot, TagOf(slot), page)
    {
      node[page] := node[page].(next := node[n + slot].next);
      node[n + slot] := node[n + slot].(next := page);
      node[page] := node[page].(prev := Addr(n + slot) + TagOf(slot));
      var first := node[page].next;
      node[first] := node[first].(prev := Addr(page) + TagOf(slot));
    }

    /** A page of the slot that is on no list, because it was full, goes back on its slot list. An exact page is
        recognised by its full word, the others by their missing link. */
    method ReenterList(page: nat, slot: nat)
      requires Valid() && page < n && slot < SLOTS && cells[page].kind == Chunked(slot)
      modifies node, `lists
      ensures node.Length == n + 10 && Marking(n, node[..], mem[..], cells, lists, taken, page, slot)
    {
      ghost var was, slots := node[..], lists;
      assert ChunkOk(was, mem[..], cells, lists, taken, page) && PageOk(was, cells, lists, page);
      UnlistedTest(n, was, mem[..], cells, lists, taken, page, slot);
      if (if slot == 3 then node[page].slab == BUSY else node[page].next == NULL) {
        EnterSlot(n, was, cells, lists, slot, page);
        PushPage(page, slot);
        lists := lists[slot := [page] + lists[slot]];
      }
      hide PageOk, ChunkOk, StatsOk;
      EnterKeeps(n, was, node[..], mem[..], cells, slots, lists, taken, page, slot);
    }

    /** A page whose last chunk, `i`, was unmarked goes back to the page layer. */
    method LetGo(page: nat, slot: nat, ghost i: nat)
      requires Clearing(n, node[..], mem[..], cells, lists, taken, page, slot, i) && PagesValid()
      requires taken[page] == {} && cells[page].head == page
      modifies node, `pfree, `cells, `lists
      ensures PagesValid() && cells == FreeCells(old(cells), page)
      ensures ChunkInv(n, node[..], mem[..], cells, lists, taken)
    {
      ghost var was, c, slots := node[..], cells, lists;
      assert PageOk(was, c, lists, page) && InRun(c[page], page);
      FreeRun(page, 1);
      ClearedReleases(n, was, node[..], mem[..], c, slots, lists, taken, page, slot, i);
    }

    /** A page whose last chunk, `i`, was unmarked and counted goes, and its room with it. */
    method ReturnPage(page: nat, slot: nat, ghost i: nat)
      requires node.Length == n + 10 && mem.Length == 512 * n && stats.Length == SLOTS
      requires PAGESIZE * n <= limit && start % PAGESIZE == 0
      requires Clearing(n, node[..], mem[..], cells, lists, taken, page, slot, i) && PagesValid()
      requires StatsOk(stats[..], cells, taken) && taken[page] == {}
      modifies node, stats, `pfree, `cells, `lists
      ensures Valid()
      ensures GaveBlock(old(cells), taken[page := taken[page] + {i}], cells, taken, Chunk(page, slot, i))
      ensures SameRequests(old(stats[..]), stats[..])
    {
      ghost var c, st := cells, stats[..];
      hide StatsOk, PageOk, Tiled, Coalesced, PageBits, GaveBlock, FreeCells, PageInv, FreePages, ChunkInv, Clearing;
      ClearingCell(n, node[..], mem[..], c, lists, taken, page, slot, i);
      LetGo(page, slot, i);
      stats[slot] := stats[slot].(total := (stats[slot].total + U32 - Capacity(slot)) % U32);
      StatsRelease(st, c, taken, page, slot, stats[..]);
      GaveLastChunk(c, taken, page, slot, i);
    }

    /** After chunk `i` is unmarked: the counters follow, and an empty page goes back to the page layer. */
    method FinishFree(page: nat, slot: nat, ghost i: nat, empty: bool)
      requires node.Length == n + 10 && mem.Length == 512 * n && stats.Length == SLOTS
      requires PAGESIZE * n <= limit && start % PAGESIZE == 0
      requires Clearing(n, node[..], mem[..], cells, lists, taken, page, slot, i) && PagesValid()
      requires StatsOk(stats[..], cells, taken[page := taken[page] + {i}])
      requires empty <==> taken[page] == {}
      modifies node, stats, `pfree, `cells, `lists
      ensures Valid()
      ensures GaveBlock(old(cells), taken[page := taken[page] + {i}], cells, taken, Chunk(page, slot, i))
      ensures SameRequests(old(stats[..]), stats[..])
    {
      ghost var c, st := cells, stats[..];
      hide PageOk, Tiled, PageBits, GaveBlock;
      stats[slot] := stats[slot].(used := (stats[slot].used + U32 - 1) % U32);
      StatsClear(st, c, taken, page, slot, i, stats[..]);
      if empty {
        ReturnPage(page, slot, i);
      } else {
        ClearedStays(n, node[..], mem[..], c, lists, taken, page, slot, i);
        GaveChunk(c, taken[page := taken[page] + {i}], page, slot, i);
        assert taken[page := taken[page] + {i}][page := taken[page] + {i} - {i}] == taken;
      }
    }

    /** Tests that the bitmap words behind the first are zero. */
    method RestZero(page: nat, slot: nat) returns (zero: bool)
      requires slot < 3 && 512 * page + 512 <= mem.Length
      ensures zero <==> WordsZero(slot, mem[..], page, 1)
    {
      Tables(slot);
      zero := true;
      var i := 1;
      while i < MapWords(slot)
        invariant 1 <= i <= MapWords(slot)
        invariant forall k: nat {:trigger WordAt(mem[..], page, k)} :: 1 <= k < i ==> WordAt(mem[..], page, k) == 0
      {
        if mem[512 * page + i] != 0 {
          assert WordAt(mem[..], page, i) != 0;
          zero := false;
          return;
        }
        i := i + 1;
      }
    }

    /** Frees chunk `i` of a small page, if its bitmap marks it. */
    method FreeSmall(page: nat, slot: nat, i: nat) returns (r: FreeResult)
      requires Valid() && slot < 3 && page < n && cells[page].kind == Chunked(slot)
      requires Reserved(slot) <= i < Chunks(slot)
      modifies node, mem, stats, `pfree, `cells, `lists, `taken
      ensures Valid() && r == if i in old(taken)[page] then Done else AlreadyFree
      ensures r == Done ==> GaveBlock(old(cells), old(taken), cells, taken, Chunk(page, slot, i))
      ensures r != Done ==> cells == old(cells) && taken == old(taken)
      ensures SameRequests(old(stats[..]), stats[..])
      ensures Harmless(old(cells), old(mem[..]), mem[..])
    {
      assert ChunkOk(node[..], mem[..], cells, lists, taken, page);
      Tables(slot);
      assert Marked(slot, node[page].slab, mem[..], page, i) <==> i in taken[page];
      if !Bit(mem[512 * page + i / 64], i % 64) {
        return AlreadyFree;
      }
      ReenterList(page, slot);
      ghost var words := mem[..];
      WordBits(mem[512 * page + i / 64], i % 64);
      BitmapWordHarmless(cells, words, page, i / 64, ClearBit(mem[512 * page + i / 64], i % 64));
      mem[512 * page + i / 64] := ClearBit(mem[512 * page + i / 64], i % 64);
      assert node[..] == node[..][page := node[page].(slab := ClearSlab(slot, node[page].slab, i))];
      ClearKeeps(n, node[..], words, cells, lists, taken, page, slot, i, node[..], mem[..],
          taken[page := taken[page] - {i}]);
      assert taken[page] - {i} + {i} == taken[page];
      assert taken == taken[page := taken[page] - {i}][page := taken[page] - {i} + {i}];
      taken := taken[page := taken[page] - {i}];
      var empty := false;
      EmptyTest(slot, node[page].slab, mem[..], page, taken[page]);
      if Shr(mem[512 * page], Reserved(slot)) == 0 {
        empty := RestZero(page, slot);
      }
      FinishFree(page, slot, i, empty);
      r := Done;
    }

    /** Gives back chunk `i` of those that hold a small page's own bitmap, which are marked like any other: the
        mark is cleared, so that the chunk can be handed out next, and the pool is not a valid one any more. */
    method FreeReserved(page: nat, slot: nat, i: nat)
      requires Valid() && slot < 3 && page < n && cells[page].kind == Chunked(slot) && i < Reserved(slot)
      modifies node, mem, stats, `lists
      ensures mem.Length == 512 * n && !Bit(mem[512 * page], i) && !Valid()
      ensures SameRequests(old(stats[..]), stats[..])
      ensures Harmless(old(cells), old(mem[..]), mem[..])
    {
      Tables(slot);
      assert ChunkOk(node[..], mem[..], cells, lists, taken, page);
      ReenterList(page, slot);
      ghost var slab, words := node[page].slab, mem[..];
      WordBits(mem[512 * page], i);
      BitmapWordHarmless(cells, words, page, 0, ClearBit(words[512 * page], i));
      ReservedCleared(slot, slab, words, page, taken[page], i);
      mem[512 * page] := ClearBit(mem[512 * page], i);
      assert mem[..] == words[512 * page := ClearBit(words[512 * page], i)];
      var empty := false;
      if Shr(mem[512 * page], Reserved(slot)) == 0 {
        empty := RestZero(page, slot);
      }
      assert !empty;
      stats[slot] := stats[slot].(used := (stats[slot].used + U32 - 1) % U32);
      BitsInOrder(n, node[..], mem[..], cells, lists, taken, slot, page);
    }

    /** Frees chunk `i` of an exact or big page, if its `slab` word marks it. */
    method FreeWord(page: nat, slot: nat, i: nat) returns (r: FreeResult)
      requires Valid() && 3 <= slot < SLOTS && page < n && cells[page].kind == Chunked(slot) && i < Chunks(slot)
      modifies node, stats, `pfree, `cells, `lists, `taken
      ensures Valid() && r == if i in old(taken)[page] then Done else AlreadyFree
      ensures r == Done ==> GaveBlock(old(cells), old(taken), cells, taken, Chunk(page, slot, i))
      ensures r != Done ==> cells == old(cells) && taken == old(taken)
      ensures SameRequests(old(stats[..]), stats[..])
    {
      assert ChunkOk(node[..], mem[..], cells, lists, taken, page);
      Tables(slot);
      assert Marked(slot, node[page].slab, mem[..], page, i) <==> i in taken[page];
      if !Bit(node[page].slab, if slot == 3 then i else 32 + i) {
        return AlreadyFree;
      }
      ReenterList(page, slot);
      ghost var was := node[..];
      node[page] := node[page].(slab := ClearSlab(slot, node[page].slab, i));
      ClearKeeps(n, was, mem[..], cells, lists, taken, page, slot, i, node[..], mem[..],
          taken[page := taken[page] - {i}]);
      assert taken[page] - {i} + {i} == taken[page];
      assert taken == taken[page := taken[page] - {i}][page := taken[page] - {i} + {i}];
      taken := taken[page := taken[page] - {i}];
      EmptyTest(slot, node[page].slab, mem[..], page, taken[page]);
      FinishFree(page, slot, i, if slot == 3 then node[page].slab == 0 else Shr(node[page].slab, 32) == 0);
      r := Done;
    }

    /** Frees the run of whole pages that starts at `addr`; the page is not one of a slot. */
    method ReleaseRun(addr: nat) returns (r: FreeResult, ghost b: Block)
      requires Valid() && addr / PAGESIZE < n && !cells[addr / PAGESIZE].kind.Chunked?
      modifies node, `pfree, `cells, `lists
      ensures Valid()
      ensures r != Broken && r != Beyond
      ensures r == Done ==> IsLive(old(cells), taken, b) && Address(b) == addr
      ensures r == Done ==> GaveBlock(old(cells), taken, cells, taken, b)
      ensures r != Done ==> NamesNothing(cells, taken, addr) && cells == old(cells)
    {
      b := Pages(0, 0);
      ghost var was, c, slots := node[..], cells, lists;
      InvShape(n, was, mem[..], c, slots, taken);
      var page := addr / PAGESIZE;
      assert PageOk(was, c, slots, page);
      HeadIsOwn(c, page);
      if addr % PAGESIZE != 0 {
        NothingInRun(c, taken, addr);
        return WrongChunk, b;
      }
      var slab := node[page].slab;
      if slab < START || slab == BUSY {
        NothingInRun(c, taken, addr);
        return Failed, b;
      }
      b := Pages(page, slab - START);
      GaveRun(c, taken, page);
      FreeRun(page, slab - START);
      FreeKeepsChunks(n, was, node[..], mem[..], c, slots, lists, taken, stats[..], page);
      r := Done;
    }

    /** Frees the chunk that starts at `addr`, in a page of a slot. */
    method ReleaseChunk(addr: nat) returns (r: FreeResult, ghost b: Block)
      requires Valid() && addr / PAGESIZE < n && cells[addr / PAGESIZE].kind.Chunked?
      modifies node, mem, stats, `pfree, `cells, `lists, `taken
      ensures Valid() <==> r != Broken
      ensures r == Broken <==> InBitmap(old(cells), addr)
      ensures r == Done ==> IsLive(old(cells), old(taken), b) && Address(b) == addr
      ensures r == Done ==> GaveBlock(old(cells), old(taken), cells, taken, b)
      ensures r != Done && r != Broken ==> NamesNothing(cells, taken, addr) && cells == old(cells)
      ensures r != Done && r != Broken ==> taken == old(taken)
      ensures r != Beyond && SameRequests(old(stats[..]), stats[..])
      ensures Harmless(old(cells), old(mem[..]), mem[..])
    {
      assert |cells| == |taken| == n && node.Length == n + 10;
      hide SameRequests, Harmless, PageInv, ChunkInv, ChunkInvBut, StatsOk, PageShape;
      var page := addr / PAGESIZE;
      InvShape(n, node[..], mem[..], cells, lists, taken);
      SlotOfPage(n, node[..], mem[..], cells, lists, taken, page);
      var kind := node[page].prev % 4;
      var slot := if kind == 2 then 3 else Low(node[page].slab, 4) - 3;
      ChunkAddress(addr, slot);
      var i := (addr % PAGESIZE) / Size(slot);
      b := Chunk(page, slot, i);
      if (addr % PAGESIZE) % Size(slot) != 0 {
        NothingInChunk(cells, taken, addr, slot);
        return WrongChunk, b;
      }
      if slot < 3 && i < Reserved(slot) {
        FreeReserved(page, slot, i);
        return Broken, b;
      }
      r := FreeChunk(page, slot, i, kind);
      if r != Done { NothingInChunk(cells, taken, addr, slot); }
    }

    /** Frees chunk `i` by the page's type. */
    method FreeChunk(page: nat, slot: nat, i: nat, kind: nat) returns (r: FreeResult)
      requires Valid() && slot < SLOTS && page < n && cells[page].kind == Chunked(slot)
      requires Reserved(slot) <= i < Chunks(slot)
      requires kind == 3 <==> slot < 3
      modifies node, mem, stats, `pfree, `cells, `lists, `taken
      ensures Valid() && r == if i in old(taken)[page] then Done else AlreadyFree
      ensures r == Done ==> GaveBlock(old(cells), old(taken), cells, taken, Chunk(page, slot, i))
      ensures r != Done ==> cells == old(cells) && taken == old(taken)
      ensures SameRequests(old(stats[..]), stats[..])
      ensures Harmless(old(cells), old(mem[..]), mem[..])
    {
      if kind == 3 {
        r := FreeSmall(page, slot, i);
      } else {
        r := FreeWord(page, slot, i);
      }
    }

    /** Frees the block at offset `addr`. Any other offset is recognised and changes nothing, but for two kinds:
        the start of a chunk of a small page's own bitmap, whose mark is cleared, and an offset behind the last
        page but not behind the pool's end, for which the structure behind the last one would be read. In all cases
        the words of the blocks that are live are left alone. */
    method Release(addr: int) returns (r: FreeResult, ghost b: Block)
      requires Valid()
      modifies this, node, mem, stats
      ensures Valid() <==> r != Broken
      ensures r == Broken <==> 0 <= addr < PAGESIZE * n && InBitmap(old(cells), addr)
      ensures r == Beyond <==> PAGESIZE * n <= addr <= limit
      ensures r == Done ==> IsLive(old(cells), old(taken), b) && Address(b) == addr
      ensures r == Done ==> GaveBlock(old(cells), old(taken), cells, taken, b)
      ensures r != Done && r != Broken ==> NamesNothing(cells, taken, addr) && cells == old(cells)
      ensures r != Done && r != Broken ==> taken == old(taken)
      ensures SameWords(old(cells), old(taken), old(mem[..]), mem[..]) && SameRequests(old(stats[..]), stats[..])
    {
      InvShape(n, node[..], mem[..], cells, lists, taken);
      HarmlessKeepsWords(cells, taken, mem[..], mem[..]);
      if addr < 0 || addr > limit {
        NothingOutside(cells, taken, addr);
        return Failed, Pages(0, 0);
      }
      if addr / PAGESIZE >= n {
        NothingOutside(cells, taken, addr);
        return Beyond, Pages(0, 0);
      }
      assert PageOk(node[..], cells, lists, addr / PAGESIZE);
      assert ChunkOk(node[..], mem[..], cells, lists, taken, addr / PAGESIZE);
      TypeTest(n, node[..], cells, lists, addr / PAGESIZE);
      if node[addr / PAGESIZE].prev % 4 == 0 {
        r, b := ReleaseRun(addr);
      } else {
        r, b := ReleaseChunk(addr);
        HarmlessKeepsWords(old(cells), old(taken), old(mem[..]), mem[..]);
      }
    }

    /** The owner of a live block may write any word of it: the pool keeps nothing there. */
    method Store(w: nat, v: Word, ghost b: Block)
      requires Valid() && IsLive(cells, taken, b) && Address(b) <= 8 * w < Address(b) + Bytes(b)
      modifies mem
      ensures Valid()
    {
      ghost var words := mem[..];
      InvShape(n, node[..], words, cells, lists, taken);
      LiveWordIsNotBitmap(cells, taken, b, w);
      mem[w] := v;
      StoreKeeps(n, node[..], words, mem[..], cells, lists, taken, w);
    }
  }

  datatype FreeResult = Done | WrongChunk | AlreadyFree | Failed | Broken | Beyond

  /** Offset `addr` is the start of a chunk that holds a small page's bitmap. */
  predicate InBitmap(c: seq<Cell>, addr: nat)
    requires addr / PAGESIZE < |c|
  {
    var k := c[addr / PAGESIZE].kind;
    && k.Chunked? && k.slot < 3
    && (addr % PAGESIZE) % Size(k.slot) == 0 && (addr % PAGESIZE) / Size(k.slot) < Reserved(k.slot)
  }

  /** No free run has `want` pages. */
  ghost predicate NoRunFor(c: seq<Cell>, want: nat) {
    forall a {:trigger FreeHead(c, a)} :: FreeHead(c, a) ==> c[a].len < want
  }

  /** No page of the request's slot has room, and no page is free. */
  ghost predicate NoChunkFor(c: seq<Cell>, t: seq<set<nat>>, size: nat)
    requires |t| == |c|
  {
    forall s {:trigger ServedBy(size, s)} :: ServedBy(size, s) ==> SlotExhausted(c, t, s)
  }

  lemma NoChunkAgrees(c: seq<Cell>, t: seq<set<nat>>, size: nat, s: nat)
    requires |t| == |c| && ServedBy(size, s)
    ensures NoChunkFor(c, t, size) <==> SlotExhausted(c, t, s)
  {
    forall r | ServedBy(size, r) ensures r == s { OneSlotServes(size, r, s); }
  }

  /** The block suits the request: the smallest chunk that holds it, or just enough pages. */
  ghost predicate BlockFits(b: Block, size: nat) {
    && Bytes(b) >= size
    && if size <= PAGESIZE / 2 then b.Chunk? && ServedBy(size, b.slot)
       else b.Pages? && PAGESIZE * (b.len - 1) < size
  }

  /** A slot's chunks are less than twice the request, unless it is the least slot. */
  lemma ServedTightly(size: nat, s: nat)
    requires ServedBy(size, s)
    ensures size <= Size(s) <= 2048 && (Size(s) == 8 || Size(s) < 2 * size)
  {
    SlotTable(s);
    if s > 0 { SlotTable(s - 1); }
  }

  /** The statistics have counted a request for `size` bytes, and that it failed. Whole pages are not counted. */
  ghost predicate CountedFor(was: seq<Stat>, now: seq<Stat>, size: nat, failed: bool) {
    if size > 2048 then SameRequests(was, now)
    else exists slot :: ServedBy(size, slot) && Requested(was, now, slot, true, failed)
  }

  /** `page` is the first run on the list with at least `want` pages. */
  ghost predicate FirstFit(c: seq<Cell>, fs: seq<nat>, want: nat, page: int) {
    exists k :: 0 <= k < |fs| && fs[k] == page && forall j :: 0 <= j < k ==> fs[j] < |c| && c[fs[j]].len < want
  }
}
