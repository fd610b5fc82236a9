/** The blocks a slab pool has handed out, and what holds of them in every state of the pool. */
module LiveBlocks {
  import opened Arithmetic
  import opened Tiles
  import opened PageLayer
  import opened ChunkLayer

  /** A run of whole pages, or chunk `index` of a page of slot `slot`. */
  datatype Block = Pages(page: nat, len: nat) | Chunk(page: nat, slot: nat, index: nat)

  /** Offset of the block from the start of the pages. */
  function Address(b: Block): nat {
    match b
    case Pages(p, _) => PAGESIZE * p
    case Chunk(p, s, i) => PAGESIZE * p + i * Size(s)
  }

  function Bytes(b: Block): nat {
    match b
    case Pages(_, len) => PAGESIZE * len
    case Chunk(_, s, _) => Size(s)
  }

  /** The blocks in use, read off the runs and the chunks handed out. */
  predicate IsLive(c: seq<Cell>, t: seq<set<nat>>, b: Block)
    requires |t| == |c|
  {
    b.page < |c| &&
    match b
    case Pages(p, len) => c[p] == Cell(p, len, Whole)
    case Chunk(p, s, i) => c[p].kind == Chunked(s) && i in t[p]
  }

  /** What the chunk layer keeps of one page, without its encoding. */
  predicate PageShape(c: seq<Cell>, t: seq<set<nat>>, p: nat)
    requires p < |c| == |t|
  {
    match c[p].kind
    case Chunked(s) => s < SLOTS && c[p].len == 1 && t[p] != {} && forall i ::
        i in t[p] ==> Reserved(s) <= i < Chunks(s)
    case _ => t[p] == {}
  }

  ghost predicate Shape(c: seq<Cell>, t: seq<set<nat>>) {
    && |t| == |c| && Tiled(c) && Coalesced(c)
    && forall p: nat {:trigger PageShape(c, t, p)} :: p < |c| ==> PageShape(c, t, p)
  }

  predicate Disjoint(a: Block, b: Block) {
    Address(a) + Bytes(a) <= Address(b) || Address(b) + Bytes(b) <= Address(a)
  }

  lemma ChunkBounds(s: nat, i: nat, j: nat)
    requires s < SLOTS && i < j <= Chunks(s)
    ensures i * Size(s) + Size(s) <= j * Size(s) <= PAGESIZE
  {
    Tables(s);
    TimesGrows(i + 1, j, Size(s));
    TimesGrows(j, Chunks(s), Size(s));
    assert (i + 1) * Size(s) == i * Size(s) + Size(s);
  }

  lemma ChunkInside(p: nat, s: nat, i: nat)
    requires s < SLOTS && i < Chunks(s)
    ensures PAGESIZE * p <= Address(Chunk(p, s, i))
    ensures Address(Chunk(p, s, i)) + Size(s) <= PAGESIZE * (p + 1) && 0 < Size(s)
  {
    Tables(s);
    ChunkBounds(s, i, i + 1);
  }

  /** A live block lies inside its own run. */
  lemma LiveInside(c: seq<Cell>, t: seq<set<nat>>, b: Block)
    requires Shape(c, t) && IsLive(c, t, b)
    ensures c[b.page].head == b.page && 0 < Bytes(b)
    ensures PAGESIZE * b.page <= Address(b)
    ensures Address(b) + Bytes(b) <= PAGESIZE * (b.page + c[b.page].len) <= PAGESIZE * |c|
  {
    assert PageShape(c, t, b.page);
    assert InRun(c[b.page], b.page);
    assert PAGESIZE * (b.page + c[b.page].len) <= PAGESIZE * |c|;
    hide Shape, Tiled, Size, Chunks, Reserved;
    if b.Chunk? { ChunkInside(b.page, b.slot, b.index); }
  }

  /** Live blocks never overlap. */
  lemma LiveBlocksDisjoint(c: seq<Cell>, t: seq<set<nat>>, a: Block, b: Block)
    requires Shape(c, t) && IsLive(c, t, a) && IsLive(c, t, b) && a != b
    ensures Disjoint(a, b)
  {
    LiveInside(c, t, a);
    LiveInside(c, t, b);
    if a.page == b.page {
      assert PageShape(c, t, a.page);
      if a.index < b.index { ChunkBounds(a.slot, a.index, b.index); } else { ChunkBounds(a.slot, b.index, a.index); }
    } else {
      SameRun(c, a.page, b.page);
      SameRun(c, b.page, a.page);
    }
  }

  /** An address names at most one live block. */
  lemma AddressNamesOne(c: seq<Cell>, t: seq<set<nat>>, a: Block, b: Block)
    requires Shape(c, t) && IsLive(c, t, a) && IsLive(c, t, b) && Address(a) == Address(b)
    ensures a == b
  {
    if a != b {
      LiveBlocksDisjoint(c, t, a, b);
      LiveInside(c, t, a);
      LiveInside(c, t, b);
    }
  }

  /** What a block's address is a multiple of. */
  function Alignment(b: Block): (a: nat)
    ensures a > 0
  {
    match b
    case Pages(_, _) => PAGESIZE
    case Chunk(_, s, _) => Size(s)
  }

  /** With the pages aligned to the page size, every block is aligned: chunks to their own size. */
  lemma LiveAligned(c: seq<Cell>, t: seq<set<nat>>, b: Block, start: nat)
    requires Shape(c, t) && IsLive(c, t, b) && start % PAGESIZE == 0
    ensures (start + Address(b)) % Alignment(b) == 0
  {
    assert PageShape(c, t, b.page);
    match b
    case Pages(_, _) =>
    case Chunk(p, s, i) =>
      assert s < SLOTS;
      hide *;
      SlotAligned(start, p, s, i);
  }

  lemma SlotAligned(start: nat, p: nat, s: nat, i: nat)
    requires s < SLOTS && start % PAGESIZE == 0
    ensures (start + Address(Chunk(p, s, i))) % Alignment(Chunk(p, s, i)) == 0
  {
    Tables(s);
    assert Address(Chunk(p, s, i)) == PAGESIZE * p + i * Size(s) && Alignment(Chunk(p, s, i)) == Size(s);
    hide *;
    ChunkAligned(start, p, i, Chunks(s), Size(s));
  }

  lemma ChunkAligned(start: nat, page: nat, index: nat, m: nat, s: nat)
    requires m * s == PAGESIZE && s > 0 && start % PAGESIZE == 0
    ensures (start + (PAGESIZE * page + index * s)) % s == 0
  {
    var p := start / PAGESIZE + page;
    assert start + PAGESIZE * page == p * PAGESIZE;
    Arithmetic.Assoc(p, m, s);
    Distribute(p * m, index, s);
    Positive(p, m);
    ModUnique(start + (PAGESIZE * page + index * s), s, p * m + index, 0);
  }

  /** No chunk covers the bitmap that a small page keeps at its start. */
  lemma BitmapIsClear(c: seq<Cell>, t: seq<set<nat>>, b: Block)
    requires Shape(c, t) && IsLive(c, t, b) && b.Chunk? && b.slot < 3
    ensures Address(b) >= PAGESIZE * b.page + 8 * MapWords(b.slot)
  {
    assert PageShape(c, t, b.page);
    Tables(b.slot);
    TimesGrows(Reserved(b.slot), b.index, Size(b.slot));
  }

  /** When nothing is live, one free run covers the pool: what it was when it was made. */
  lemma NothingLive(c: seq<Cell>, t: seq<set<nat>>)
    requires Shape(c, t) && forall b {:trigger IsLive(c, t, b)} :: !IsLive(c, t, b)
    ensures forall p :: 0 <= p < |c| ==> c[p] == Cell(0, |c|, Free) && t[p] == {}
    ensures FreePages(c) == |c|
  {
    forall p: nat | p < |c| ensures c[p].kind.Free? {
      var h := c[p].head;
      HeadIsOwn(c, p);
      assert PageShape(c, t, h);
      assert !IsLive(c, t, Pages(h, c[h].len));
      forall s, i | c[h].kind == Chunked(s) ensures i !in t[h] { assert !IsLive(c, t, Chunk(h, s, i)); }
    }
    AllFreeIsOneRun(c);
    FreePagesUniform(c, true);
    forall p: nat | p < |c| ensures t[p] == {} { assert PageShape(c, t, p); }
  }

  /** Splitting an offset into page and chunk. As a page holds whole chunks, the bits of the offset below the
      chunk size are those of its part within the page. */
  lemma ChunkAddress(addr: nat, s: nat)
    requires s < SLOTS
    ensures (addr % PAGESIZE) / Size(s) < Chunks(s)
    ensures (addr % PAGESIZE) % Size(s) == 0 ==> addr == Address(Chunk(addr / PAGESIZE, s, (addr % PAGESIZE) / Size(s)))
  {
    Tables(s);
    InPage(addr % PAGESIZE, Size(s), Chunks(s));
    assert addr == addr / PAGESIZE * PAGESIZE + addr % PAGESIZE;
  }

  lemma InPage(r: nat, m: nat, n: nat)
    requires m > 0 && r < n * m
    ensures r / m < n && (r % m == 0 ==> r == r / m * m)
  {
    assert r == m * (r / m) + r % m;
    if r / m >= n { TimesGrows(n, r / m, m); }
  }

  lemma ChunkIndex(p: nat, s: nat, i: nat)
    requires s < SLOTS && i < Chunks(s)
    ensures var a := Address(Chunk(p, s, i));
      a / PAGESIZE == p && (a % PAGESIZE) % Size(s) == 0 && (a % PAGESIZE) / Size(s) == i
  {
    ChunkBounds(s, i, i + 1);
    ModUnique(i * Size(s), Size(s), i, 0);
  }

  /** The only block that an offset can name, given what its page is used for. */
  lemma NamedBlock(c: seq<Cell>, t: seq<set<nat>>, b: Block, addr: nat)
    requires Shape(c, t) && IsLive(c, t, b) && Address(b) == addr
    ensures b.page == addr / PAGESIZE && c[b.page].head == b.page
    ensures b.Pages? ==> addr % PAGESIZE == 0 && c[b.page] == Cell(b.page, b.len, Whole)
    ensures b.Chunk? ==> c[b.page].kind == Chunked(b.slot) && (addr % PAGESIZE) % Size(b.slot) == 0
    ensures b.Chunk? ==> b.index in t[b.page]
    ensures b.Chunk? ==> b.index == (addr % PAGESIZE) / Size(b.slot)
  {
    LiveInside(c, t, b);
    assert PageShape(c, t, b.page);
    if b.Chunk? { ChunkIndex(b.page, b.slot, b.index); }
  }

  // Sizing a pool

  const PAGESTRUCT: nat := 24

  /** The first multiple of the page size at or above `x`. */
  function AlignUp(x: nat): (r: nat)
    ensures r % PAGESIZE == 0 && x <= r < x + PAGESIZE
  {
    (x + PAGESIZE - 1) / PAGESIZE * PAGESIZE
  }

  /** Pages that fit, each with its structure, between `p` and `end`, before alignment is taken into account. */
  function RoughPages(p: nat, end: nat): nat
    requires p <= end
  {
    (end - p) / (PAGESIZE + PAGESTRUCT)
  }

  /** The number of pages once their start is aligned: those that do not fit any more are given up. */
  function PagesFor(p: nat, end: nat): (n: int)
    requires p <= end
  {
    var start := AlignUp(p + RoughPages(p, end) * PAGESTRUCT);
    var m := RoughPages(p, end) - if end >= start then (end - start) / PAGESIZE else 0;
    if m > 0 then RoughPages(p, end) - m else RoughPages(p, end)
  }

  /** The structures fit below the aligned pages, the pages below the end, and no layout of structures of 24 bytes and
      pages of 4096 has more than one page more. */
  lemma PagesFit(p: nat, end: nat)
    requires p <= end
    ensures var start := AlignUp(p + RoughPages(p, end) * PAGESTRUCT);
      && 0 <= PagesFor(p, end) <= RoughPages(p, end) <= PagesFor(p, end) + 1
      && p + PagesFor(p, end) * PAGESTRUCT <= start
      && (PagesFor(p, end) > 0 ==> start + PagesFor(p, end) * PAGESIZE <= end)
      && start < p + (PagesFor(p, end) + 1) * 24 + 4096
      && (forall m: nat {:trigger 24 * m} :: 24 * m + 4096 * m <= end - p ==> m <= PagesFor(p, end) + 1)
  {
  }

  // The statistics

  function Sum(w: seq<nat>): nat {
    if w == [] then 0 else Sum(w[..|w| - 1]) + w[|w| - 1]
  }

  lemma {:induction false} SumUpdate(w: seq<nat>, p: nat, v: nat)
    requires p < |w|
    ensures Sum(w[p := v]) + w[p] == Sum(w) + v
  {
    var m := |w| - 1;
    if p == m {
      assert w[p := v][..m] == w[..m];
    } else {
      assert w[p := v][..m] == w[..m][p := v];
      SumUpdate(w[..m], p, v);
    }
  }

  /** Chunks of slot `s` handed out, page by page. */
  function UsedAt(c: seq<Cell>, t: seq<set<nat>>, s: nat): (w: seq<nat>)
    requires |t| == |c|
    ensures |w| == |c|
  {
    seq(|c|, p requires 0 <= p < |c| => if c[p].kind == Chunked(s) then |t[p]| else 0)
  }

  /** Chunks that pages of slot `s` can hold, page by page. */
  function RoomAt(c: seq<Cell>, s: nat): (w: seq<nat>)
    ensures |w| == |c|
  {
    seq(|c|, p requires 0 <= p < |c| => if c[p].kind == Chunked(s) then Capacity(s) else 0)
  }

  function Capacity(s: nat): nat {
    if Reserved(s) <= Chunks(s) then Chunks(s) - Reserved(s) else 0
  }

  /** How many chunks a page serves. */
  lemma CapacityTable(s: nat)
    requires s < SLOTS
    ensures Capacity(s) == [504, 254, 127, 64, 32, 16, 8, 4, 2][s]
  {
    SlotTable(s);
    OnlyTheBitmap(s);
  }

  function Used(c: seq<Cell>, t: seq<set<nat>>, s: nat): nat
    requires |t| == |c|
  {
    Sum(UsedAt(c, t, s))
  }

  function Total(c: seq<Cell>, s: nat): nat {
    Sum(RoomAt(c, s))
  }
}
