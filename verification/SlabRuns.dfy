/** What the pool promises its callers: of every live block, and once every block has been given back. */
module PoolRuns {
  import opened Tiles
  import opened PageLists
  import opened PageLayer
  import opened ChunkLayer
  import opened LiveBlocks
  import opened PoolInvariant
  import opened SlabAllocator

  /** Live blocks do not overlap, lie inside the pool, are aligned, and can be freed. */
  lemma LiveBlocksSafe(pool: SlabPool)
    requires pool.Valid()
    ensures forall a, b {:trigger IsLive(pool.cells, pool.taken, a), IsLive(pool.cells, pool.taken, b)} ::
      IsLive(pool.cells, pool.taken, a) && IsLive(pool.cells, pool.taken, b) && a != b ==> Disjoint(a, b)
    ensures forall b {:trigger IsLive(pool.cells, pool.taken, b)} :: IsLive(pool.cells, pool.taken, b) ==>
      Address(b) + Bytes(b) <= pool.limit && (pool.start + Address(b)) % Alignment(b) == 0
    ensures forall b {:trigger IsLive(pool.cells, pool.taken, b)} :: IsLive(pool.cells, pool.taken, b) ==>
      Address(b) / PAGESIZE < |pool.cells| == pool.n && !InBitmap(pool.cells, Address(b))
  {
    var c, t := pool.cells, pool.taken;
    InvShape(pool.n, pool.node[..], pool.mem[..], c, pool.lists, t);
    hide SlabPool.Valid;
    forall a, b | IsLive(c, t, a) && IsLive(c, t, b) && a != b ensures Disjoint(a, b) {
      LiveBlocksDisjoint(c, t, a, b);
    }
    forall b | IsLive(c, t, b)
      ensures Address(b) + Bytes(b) <= pool.limit && (pool.start + Address(b)) % Alignment(b) == 0
      ensures Address(b) / PAGESIZE < |c| == pool.n && !InBitmap(c, Address(b))
    {
      LiveInside(c, t, b);
      assert PAGESIZE * |c| <= pool.limit && pool.start % PAGESIZE == 0 by { PoolBounds(pool); }
      LiveAligned(c, t, b, pool.start);
      NotInBitmap(c, t, b);
    }
  }

  lemma PoolBounds(pool: SlabPool)
    requires pool.Valid()
    ensures |pool.cells| == pool.n && PAGESIZE * pool.n <= pool.limit && pool.start % PAGESIZE == 0
  {
  }

  lemma NotInBitmap(c: seq<Cell>, t: seq<set<nat>>, b: Block)
    requires Shape(c, t) && IsLive(c, t, b)
    ensures Address(b) / PAGESIZE == b.page && !InBitmap(c, Address(b))
  {
    NamedBlock(c, t, b, Address(b));
    assert PageShape(c, t, b.page);
  }

  /** The pool is as it was made: one free run of all pages, first and alone on the free list, and no chunk counted. */
  ghost predicate Pristine(pool: SlabPool)
    requires pool.Valid()
    reads pool, pool.node, pool.mem, pool.stats
  {
    && pool.pfree == pool.n && pool.node[0].slab == pool.n && pool.lists[FREELIST] == [0]
    && (forall p: nat {:trigger pool.cells[p]} :: p < pool.n ==> pool.cells[p] == Cell(0, pool.n, Free))
    && (forall s: nat {:trigger pool.stats[s]} :: s < SLOTS ==> pool.stats[s].used == 0 && pool.stats[s].total == 0)
  }

  /** A pool with pages, of which nothing is live, is as it was made. */
  lemma NothingLiveIsPristine(pool: SlabPool)
    requires pool.Valid() && pool.n > 0
    requires forall b {:trigger IsLive(pool.cells, pool.taken, b)} :: !IsLive(pool.cells, pool.taken, b)
    ensures Pristine(pool)
  {
    var n, c, t, fs := pool.n, pool.cells, pool.taken, pool.lists[FREELIST];
    InvShape(n, pool.node[..], pool.mem[..], c, pool.lists, t);
    NothingLive(c, t);
    forall s: nat | s < SLOTS ensures pool.stats[s].used == 0 && pool.stats[s].total == 0 {
      NothingLiveCounts(pool.stats[..], c, t, s);
    }
    assert PageOk(pool.node[..], c, pool.lists, 0);
    OneFreeRun(n, pool.node[..], c, pool.lists);
  }

  lemma OneFreeRun(n: nat, pg: seq<Page>, c: seq<Cell>, lists: seq<seq<nat>>)
    requires PageInv(n, pg, c, lists) && n > 0 && forall p {:trigger c[p]} :: 0 <= p < n ==> c[p] == Cell(0, n, Free)
    ensures lists[FREELIST] == [0]
  {
    var fs := lists[FREELIST];
    assert ListOk(n, pg, c, FREELIST, fs);
    assert FreeHead(c, 0);
    forall i | 0 <= i < |fs| ensures fs[i] == 0 {
      assert fs[i] in fs;
      assert MayList(c, FREELIST, fs[i]);
    }
    assert |fs| > 1 ==> Differ(Ring(n + 9, fs), 1, 2);
  }

  /** Exactly the blocks `bs` are live, and none is named twice. */
  ghost predicate LiveAre(pool: SlabPool, bs: seq<Block>)
    requires pool.Valid()
    reads pool, pool.node, pool.mem, pool.stats
  {
    && (forall b {:trigger IsLive(pool.cells, pool.taken, b)} {:trigger b in bs} ::
          IsLive(pool.cells, pool.taken, b) <==> b in bs)
    && (forall i, j :: 0 <= i < j < |bs| ==> bs[i] != bs[j])
  }

  /** Every live block can be freed by its address. */
  method FreeOne(pool: SlabPool, ghost b: Block, addr: nat) returns (r: FreeResult)
    requires pool.Valid() && IsLive(pool.cells, pool.taken, b) && addr == Address(b)
    modifies pool, pool.node, pool.mem, pool.stats
    ensures pool.Valid() && r == Done
    ensures GaveBlock(old(pool.cells), old(pool.taken), pool.cells, pool.taken, b)
  {
    LiveBlocksSafe(pool);
    InvShape(pool.n, pool.node[..], pool.mem[..], pool.cells, pool.lists, pool.taken);
    ghost var c, t := pool.cells, pool.taken;
    LiveInside(c, t, b);
    ghost var gone: Block;
    r, gone := pool.Release(addr);
    if r == Done { AddressNamesOne(c, t, gone, b); }
  }

  /** Freeing all live blocks, in any order, makes the pool what it was when it was made. */
  method FreeAll(pool: SlabPool, bs: seq<Block>)
    requires pool.Valid() && pool.n > 0 && LiveAre(pool, bs)
    modifies pool, pool.node, pool.mem, pool.stats
    ensures pool.Valid() && Pristine(pool)
  {
    var i := 0;
    assert bs[0..] == bs;
    while i < |bs|
      invariant i <= |bs| && pool.Valid() && LiveAre(pool, bs[i..])
    {
      assert bs[i] in bs[i..];
      ghost var c, t := pool.cells, pool.taken;
      assert forall b {:trigger b in bs[i..]} :: b in bs[i..] <==> b == bs[i] || b in bs[i + 1..];
      var r := FreeOne(pool, bs[i], Address(bs[i]));
      assert LiveAre(pool, bs[i + 1..]);
      i := i + 1;
    }
    NothingLiveIsPristine(pool);
  }

  /** A free page serves eight bytes, in slot 0. */
  lemma EightBytesServed(pool: SlabPool)
    requires pool.Valid() && pool.n > 0 && pool.cells[0] == Cell(0, pool.n, Free)
    ensures !NoChunkFor(pool.cells, pool.taken, 8) && ServedBy(8, 0)
  {
    SlotTable(0);
    assert FreeHead(pool.cells, 0);
    assert ServedBy(8, 0) && !SlotExhausted(pool.cells, pool.taken, 0);
  }

  /** The page of an eight-byte chunk begins with its bitmap. */
  lemma BitmapBelow(c: seq<Cell>, t: seq<set<nat>>, b: Block)
    requires Shape(c, t) && IsLive(c, t, b) && b.Chunk? && b.slot == 0
    ensures var a := Address(b) / PAGESIZE * PAGESIZE; a < PAGESIZE * |c| && InBitmap(c, a)
  {
    assert PageShape(c, t, b.page);
    ChunkIndex(b.page, 0, b.index);
    Tables(0);
  }

  /** Two offsets that are not recognised, in a pool of three pages: the start of the page that serves the first
      eight bytes, which holds its bitmap, and the pool's end, which is behind the last page. */
  method Unrecognised() returns (pool: SlabPool, atEnd: FreeResult, atBitmap: FreeResult)
    ensures atEnd == Beyond && atBitmap == Broken && !pool.Valid()
  {
    assert PagesFor(0, 16384) == 3;
    pool := new SlabPool(0, 16384);
    NothingLiveIsPristine(pool);
    ghost var b;
    atEnd, b := pool.Release(pool.limit);
    EightBytesServed(pool);
    var addr: int;
    hide NoChunkFor, SameWords;
    addr, b := pool.Alloc(8);
    OneSlotServes(8, b.slot, 0);
    InvShape(pool.n, pool.node[..], pool.mem[..], pool.cells, pool.lists, pool.taken);
    BitmapBelow(pool.cells, pool.taken, b);
    hide InBitmap;
    atBitmap, b := pool.Release(addr / PAGESIZE * PAGESIZE);
  }
}
