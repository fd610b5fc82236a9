/** The invariant of the chunk layer, and how its steps keep it. */
module PoolInvariant {
  import opened Words
  import opened Tiles
  import opened PageLists
  import opened PageLayer
  import opened ChunkLayer
  import opened LiveBlocks
  import opened SlotSteps

  datatype Stat = Stat(total: nat, used: nat, reqs: nat, fails: nat)

  /** A page of a slot has something handed out, its marks say what, and it is on its slot list exactly
      when it has room. */
  ghost predicate ChunkOk(pg: seq<Page>, mem: seq<Word>, c: seq<Cell>, lists: seq<seq<nat>>, t: seq<set<nat>>, p: nat)
    requires p < |c| <= |pg| && |t| == |c| && |lists| == 10
  {
    match c[p].kind
    case Chunked(s) => PageBits(s, pg[p].slab, mem, p, t[p]) && t[p] != {} && (p in lists[s] <==> HasRoom(s, t[p]))
    case _ => t[p] == {}
  }

  /** Every page but `x` is in order. */
  ghost predicate ChunkInvBut(n: nat, pg: seq<Page>, mem: seq<Word>, c: seq<Cell>, lists: seq<seq<nat>>,
                              t: seq<set<nat>>, x: int) {
    && |pg| == n + 10 && |c| == n && |t| == n && |mem| == 512 * n && |lists| == 10
    && forall p: nat {:trigger ChunkOk(pg, mem, c, lists, t, p)} :: p < n && p != x ==> ChunkOk(pg, mem, c, lists, t, p)
  }

  ghost predicate ChunkInv(n: nat, pg: seq<Page>, mem: seq<Word>, c: seq<Cell>, lists: seq<seq<nat>>,
      t: seq<set<nat>>) {
    ChunkInvBut(n, pg, mem, c, lists, t, NULL)
  }

  /** Every page of a slot is in order bit for bit. */
  lemma BitsInOrder(n: nat, pg: seq<Page>, mem: seq<Word>, c: seq<Cell>, lists: seq<seq<nat>>, t: seq<set<nat>>,
      s: nat, p: nat)
    requires |pg| == n + 10 && |c| == n && |t| == n && |mem| == 512 * n && p < n && c[p].kind == Chunked(s)
    ensures ChunkInv(n, pg, mem, c, lists, t) ==> PageBits(s, pg[p].slab, mem, p, t[p])
  {
    if ChunkInv(n, pg, mem, c, lists, t) { assert ChunkOk(pg, mem, c, lists, t, p); }
  }

  /** The counters are 32-bit: they agree with the chunks handed out and the room for chunks modulo 2^32. */
  ghost predicate StatsOk(st: seq<Stat>, c: seq<Cell>, t: seq<set<nat>>) {
    && |st| == SLOTS && |t| == |c|
    && forall s: nat {:trigger st[s]} ::
        s < SLOTS ==> st[s].used == Used(c, t, s) % U32 && st[s].total == Total(c, s) % U32
  }

  /** The counters of requests and failures are the same. */
  ghost predicate SameRequests(was: seq<Stat>, now: seq<Stat>) {
    |was| == |now| == SLOTS && forall s: nat {:trigger now[s]} ::
      s < SLOTS ==> now[s].reqs == was[s].reqs && now[s].fails == was[s].fails
  }

  /** One request more is counted for a slot, if `asked`, and one failure more, if `failed`. */
  ghost predicate Requested(was: seq<Stat>, now: seq<Stat>, slot: nat, asked: bool, failed: bool) {
    |was| == |now| == SLOTS && forall s: nat {:trigger now[s]} :: s < SLOTS ==>
      && now[s].reqs == (if s == slot && asked then (was[s].reqs + 1) % 0x1_0000_0000 else was[s].reqs)
      && now[s].fails == (if s == slot && failed then (was[s].fails + 1) % 0x1_0000_0000 else was[s].fails)
  }

  lemma InvShape(n: nat, pg: seq<Page>, mem: seq<Word>, c: seq<Cell>, lists: seq<seq<nat>>, t: seq<set<nat>>)
    requires PageInv(n, pg, c, lists) && ChunkInv(n, pg, mem, c, lists, t)
    ensures Shape(c, t)
  {
    forall p: nat | p < |c| ensures PageShape(c, t, p) {
      assert ChunkOk(pg, mem, c, lists, t, p);
      assert PageOk(pg, c, lists, p);
    }
  }

  /** The marks of a page depend only on its own words. */
  lemma BitsFrame(s: nat, slab: nat, mem: seq<Word>, mem': seq<Word>, p: nat, t: set<nat>)
    requires PageBits(s, slab, mem, p, t) && |mem'| == |mem|
    requires forall k {:trigger mem'[k]} :: 512 * p <= k < |mem| && k < 512 * p + (if s < 3 then MapWords(s) else 0) ==>
      mem'[k] == mem[k]
    ensures PageBits(s, slab, mem', p, t)
  {
    Tables(s);
    forall i: nat | i < Chunks(s) ensures Marked(s, slab, mem', p, i) <==> i < Reserved(s) || i in t {
      assert Marked(s, slab, mem, p, i) <==> i < Reserved(s) || i in t;
    }
  }

  /** The pages other than `x` do not notice a change confined to `x`. */
  lemma OthersKeep(n: nat, pg: seq<Page>, pg': seq<Page>, mem: seq<Word>, mem': seq<Word>, c: seq<Cell>, c': seq<Cell>,
                   lists: seq<seq<nat>>, lists': seq<seq<nat>>, t: seq<set<nat>>, t': seq<set<nat>>, x: nat)
    requires ChunkInvBut(n, pg, mem, c, lists, t, x)
    requires |pg'| == n + 10 && |mem'| == |mem| && |c'| == n && |t'| == n && |lists'| == 10
    requires forall p: nat {:trigger c'[p]} ::
        p < n && p != x && (c[p].kind.Chunked? || c'[p].kind.Chunked?) ==> c'[p] == c[p]
    requires forall p: nat {:trigger pg'[p]} :: p < n && p != x && c[p].kind.Chunked? ==> pg'[p].slab == pg[p].slab
    requires forall k: nat {:trigger mem'[k]} :: k < 512 * n && !(512 * x <= k < 512 * x + 512) ==> mem'[k] == mem[k]
    requires forall p: nat {:trigger t'[p]} :: p < n && p != x ==> t'[p] == t[p]
    requires forall s: nat, q: nat {:trigger q in lists'[s]} ::
        s < SLOTS && q != x ==> (q in lists'[s] <==> q in lists[s])
    ensures ChunkInvBut(n, pg', mem', c', lists', t', x)
  {
    forall p: nat | p < n && p != x ensures ChunkOk(pg', mem', c', lists', t', p) {
      assert ChunkOk(pg, mem, c, lists, t, p);
      if c[p].kind.Chunked? {
        BitsFrame(c[p].kind.slot, pg[p].slab, mem, mem', p, t[p]);
      }
    }
  }

  /** Writing to a live block leaves the allocator's own words alone. */
  lemma LiveWordIsNotBitmap(c: seq<Cell>, t: seq<set<nat>>, b: Block, w: nat)
    requires Shape(c, t) && IsLive(c, t, b) && Address(b) <= 8 * w < Address(b) + Bytes(b)
    ensures w < 512 * |c|
    ensures c[w / 512].kind.Chunked? ==> c[w / 512].kind.slot < 3 ==>
      w >= 512 * (w / 512) + MapWords(c[w / 512].kind.slot)
  {
    LiveInside(c, t, b);
    var p := w / 512;
    SameRun(c, b.page, p);
    if c[p].kind.Chunked? && c[p].kind.slot < 3 {
      assert PageShape(c, t, p);
      assert b.Chunk? && b.page == p;
      BitmapIsClear(c, t, b);
    }
  }

  /** Words that no live block has: those of free pages, and the bitmaps of small pages. */
  predicate Unused(c: seq<Cell>, w: nat)
    requires w / 512 < |c|
  {
    var k := c[w / 512].kind;
    k.Free? || (k.Chunked? && k.slot < 3 && w < 512 * (w / 512) + MapWords(k.slot))
  }

  /** Only such words have changed. */
  ghost predicate Harmless(c: seq<Cell>, was: seq<Word>, now: seq<Word>) {
    && |was| == |now| == 512 * |c|
    && forall w: nat {:trigger now[w]} :: w < |was| && now[w] != was[w] ==> Unused(c, w)
  }

  /** The words of all live blocks are what they were. */
  ghost predicate SameWords(c: seq<Cell>, t: seq<set<nat>>, was: seq<Word>, now: seq<Word>)
    requires |t| == |c|
  {
    && |was| == |now|
    && forall b, w: nat {:trigger Covers(b, w)} ::
         IsLive(c, t, b) && Covers(b, w) ==> w < |was| && now[w] == was[w]
  }

  predicate Covers(b: Block, w: nat) {
    Address(b) <= 8 * w < Address(b) + Bytes(b)
  }

  lemma HarmlessKeepsWords(c: seq<Cell>, t: seq<set<nat>>, was: seq<Word>, now: seq<Word>)
    requires Shape(c, t) && Harmless(c, was, now)
    ensures SameWords(c, t, was, now)
  {
    forall b, w: nat | IsLive(c, t, b) && Covers(b, w) ensures w < |was| && now[w] == was[w] {
      LiveWordIsNotBitmap(c, t, b, w);
      LiveInside(c, t, b);
      SameRun(c, b.page, w / 512);
    }
  }

  /** One word of a small page's bitmap has changed. */
  lemma BitmapWordHarmless(c: seq<Cell>, was: seq<Word>, p: nat, k: nat, v: Word)
    requires |was| == 512 * |c| && p < |c| && c[p].kind.Chunked? && c[p].kind.slot < 3
    requires k < MapWords(c[p].kind.slot) <= 8
    ensures Harmless(c, was, was[512 * p + k := v])
  {
    assert (512 * p + k) / 512 == p;
  }

  /** Words of a free page have changed. */
  lemma FreePageHarmless(c: seq<Cell>, was: seq<Word>, now: seq<Word>, p: nat)
    requires |was| == |now| == 512 * |c| && p < |c| && c[p].kind.Free?
    requires forall k: nat {:trigger now[k]} :: k < |was| && !(512 * p <= k < 512 * p + 512) ==> now[k] == was[k]
    ensures Harmless(c, was, now)
  {
    forall w: nat | w < |was| && now[w] != was[w] ensures Unused(c, w) { assert w / 512 == p; }
  }

  lemma StoreKeeps(n: nat, pg: seq<Page>, mem: seq<Word>, mem': seq<Word>, c: seq<Cell>, lists: seq<seq<nat>>,
                   t: seq<set<nat>>, w: nat)
    requires ChunkInv(n, pg, mem, c, lists, t) && w < 512 * n && |mem'| == |mem|
    requires forall k {:trigger mem'[k]} :: 0 <= k < |mem| && k != w ==> mem'[k] == mem[k]
    requires c[w / 512].kind.Chunked? ==> c[w / 512].kind.slot < 3 ==>
      w >= 512 * (w / 512) + MapWords(c[w / 512].kind.slot)
    ensures ChunkInv(n, pg, mem', c, lists, t)
  {
    forall p: nat | p < n ensures ChunkOk(pg, mem', c, lists, t, p) {
      assert ChunkOk(pg, mem, c, lists, t, p);
      if c[p].kind.Chunked? {
        Tables(c[p].kind.slot);
        BitsFrame(c[p].kind.slot, pg[p].slab, mem, mem', p, t[p]);
      }
    }
  }

  // Counting

  lemma UsedChanges(c: seq<Cell>, t: seq<set<nat>>, p: nat, u: set<nat>, s: nat)
    requires |t| == |c| && p < |c|
    ensures c[p].kind != Chunked(s) ==> Used(c, t[p := u], s) == Used(c, t, s)
    ensures c[p].kind == Chunked(s) ==> Used(c, t[p := u], s) + |t[p]| == Used(c, t, s) + |u|
  {
    var w := UsedAt(c, t, s);
    if c[p].kind == Chunked(s) {
      assert UsedAt(c, t[p := u], s) == w[p := |u|];
      SumUpdate(w, p, |u|);
    } else {
      assert UsedAt(c, t[p := u], s) == w;
    }
  }

  /** Changing cells that are not slots' pages, before and after, changes no count. */
  lemma CountsKeep(c: seq<Cell>, c': seq<Cell>, t: seq<set<nat>>, s: nat)
    requires |t| == |c| == |c'|
    requires forall p: nat {:trigger c'[p]} :: p < |c| && (c[p].kind.Chunked? || c'[p].kind.Chunked?) ==> c'[p] == c[p]
    ensures Used(c', t, s) == Used(c, t, s) && Total(c', s) == Total(c, s)
  {
    assert UsedAt(c', t, s) == UsedAt(c, t, s);
    assert RoomAt(c', s) == RoomAt(c, s);
  }

  /** Page `p` starts or stops serving slot `k`, with nothing handed out. */
  lemma CountsSwitch(c: seq<Cell>, t: seq<set<nat>>, p: nat, x: Cell, y: Cell, k: nat, s: nat)
    requires |t| == |c| && p < |c| && t[p] == {} && x.kind == Chunked(k) && !y.kind.Chunked?
    ensures Used(c[p := x], t, s) == Used(c[p := y], t, s)
    ensures Total(c[p := x], s) == Total(c[p := y], s) + if s == k then Capacity(s) else 0
  {
    var w := RoomAt(c[p := y], s);
    assert UsedAt(c[p := x], t, s) == UsedAt(c[p := y], t, s);
    assert RoomAt(c[p := x], s) == w[p := if s == k then Capacity(s) else 0];
    SumUpdate(w, p, if s == k then Capacity(s) else 0);
  }

  /** Between marking a chunk of page `p` and settling the page's place: the page is on its list. */
  ghost predicate Marking(n: nat, pg: seq<Page>, mem: seq<Word>, c: seq<Cell>, lists: seq<seq<nat>>, t: seq<set<nat>>,
                          p: nat, s: nat) {
    && PageInv(n, pg, c, lists) && ChunkInvBut(n, pg, mem, c, lists, t, p) && p < n && s < SLOTS
    && c[p].kind == Chunked(s) && p in lists[s] && t[p] != {}
    && PageBits(s, pg[p].slab, mem, p, t[p])
  }

  /** Marking a free chunk of a page that has room. */
  lemma MarkKeeps(n: nat, pg: seq<Page>, mem: seq<Word>, c: seq<Cell>, lists: seq<seq<nat>>, t: seq<set<nat>>,
                  p: nat, s: nat, i: nat, pg': seq<Page>, mem': seq<Word>, t': seq<set<nat>>)
    requires PageInv(n, pg, c, lists) && ChunkInv(n, pg, mem, c, lists, t)
    requires p < n && s < SLOTS && p in lists[s] && Reserved(s) <= i < Chunks(s)
    requires s < 3 ==> 512 * p + i / 64 < |mem|
    requires pg' == pg[p := pg[p].(slab := MarkSlab(s, pg[p].slab, i))] && mem' == MarkMem(s, mem, p, i)
    requires t' == t[p := t[p] + {i}]
    ensures Marking(n, pg', mem', c, lists, t', p, s)
  {
    assert ListOk(n, pg, c, s, lists[s]);
    assert MayList(c, s, p);
    assert ChunkOk(pg, mem, c, lists, t, p);
    SlabChange(n, pg, c, lists, p, MarkSlab(s, pg[p].slab, i));
    MarkChunk(s, pg[p].slab, mem, p, t[p], i);
    Tables(s);
    OthersKeep(n, pg, pg', mem, mem', c, c, lists, lists, t, t', p);
    assert i in t'[p];
  }

  /** A page that still has room stays on its list. */
  lemma StayKeeps(n: nat, pg: seq<Page>, mem: seq<Word>, c: seq<Cell>, lists: seq<seq<nat>>, t: seq<set<nat>>, p: nat,
      s: nat)
    requires Marking(n, pg, mem, c, lists, t, p, s) && HasRoom(s, t[p])
    ensures ChunkInv(n, pg, mem, c, lists, t)
  {
    forall q: nat | q < n ensures ChunkOk(pg, mem, c, lists, t, q) {}
  }

  /** A page without room has left its list. */
  lemma LeaveKeeps(n: nat, pg: seq<Page>, pg': seq<Page>, mem: seq<Word>, c: seq<Cell>, lists: seq<seq<nat>>,
                   lists': seq<seq<nat>>, t: seq<set<nat>>, p: nat, s: nat)
    requires Marking(n, pg, mem, c, lists, t, p, s) && !HasRoom(s, t[p])
    requires PageInv(n, pg', c, lists') && SlotsWithout(lists, lists', p) && SlabsKept(c, pg, pg', NULL)
    ensures ChunkInv(n, pg', mem, c, lists', t)
  {
    OthersKeep(n, pg, pg', mem, mem, c, c, lists, lists', t, t, p);
    forall q: nat | q < n ensures ChunkOk(pg', mem, c, lists', t, q) {}
  }

  lemma StatsMark(st: seq<Stat>, c: seq<Cell>, t: seq<set<nat>>, p: nat, s: nat, i: nat, st': seq<Stat>)
    requires StatsOk(st, c, t) && p < |c| && s < SLOTS && c[p].kind == Chunked(s) && i !in t[p]
    requires st' == st[s := st[s].(used := (st[s].used + 1) % U32)]
    ensures StatsOk(st', c, t[p := t[p] + {i}])
  {
    var t' := t[p := t[p] + {i}];
    forall k: nat | k < SLOTS ensures st'[k].used == Used(c, t', k) % U32 && st'[k].total == Total(c, k) % U32 {
      UsedChanges(c, t, p, t[p] + {i}, k);
      assert st[k].used == Used(c, t, k) % U32 && st[k].total == Total(c, k) % U32;
      StatStarts(Used(c, t, k), Used(c, t', k), Total(c, k), Total(c, k), 0, st[k], st'[k], k == s);
    }
  }

  /** Page `x` left its slot list, if it was on one; the slot lists are otherwise unchanged. */
  ghost predicate SlotsWithout(was: seq<seq<nat>>, now: seq<seq<nat>>, x: int) {
    && |was| == |now| == 10
    && forall s, q {:trigger q in now[s]} {:trigger q in was[s]} :: 0 <= s < FREELIST ==>
      (q in now[s] <==> q in was[s] && q != x)
  }

  /** The `slab` words of the slots' pages, `x` aside, did not change. */
  ghost predicate SlabsKept(c: seq<Cell>, was: seq<Page>, now: seq<Page>, x: int) {
    && |c| <= |was| == |now|
    && forall q {:trigger now[q]} {:trigger was[q]} :: 0 <= q < |c| && c[q].kind.Chunked? && q != x ==>
      now[q].slab == was[q].slab
  }

  /** Allocating whole pages does not reach the chunk layer. */
  lemma AllocKeepsChunks(n: nat, pg: seq<Page>, pg': seq<Page>, mem: seq<Word>, c: seq<Cell>, lists: seq<seq<nat>>,
                         lists': seq<seq<nat>>, t: seq<set<nat>>, st: seq<Stat>, p: nat, want: nat)
    requires ChunkInv(n, pg, mem, c, lists, t) && StatsOk(st, c, t) && Tiled(c) && FreeHead(c, p)
    requires 0 < want <= c[p].len
    requires SameSlots(lists, lists') && SlabsKept(AllocCells(c, p, want), pg, pg', NULL)
    ensures ChunkInv(n, pg', mem, AllocCells(c, p, want), lists', t) && StatsOk(st, AllocCells(c, p, want), t)
  {
    var c' := AllocCells(c, p, want);
    forall q: nat | q < n && InRun(c[p], q) ensures c[q] == c[p] { SameRun(c, p, q); }
    forall q: nat | q < n ensures ChunkOk(pg', mem, c', lists', t, q) { assert ChunkOk(pg, mem, c, lists, t, q); }
    forall k: nat | k < SLOTS ensures st[k].used == Used(c', t, k) % U32 && st[k].total == Total(c', k) % U32 {
      CountsKeep(c, c', t, k);
    }
  }

  /** An allocated page starts slot `s` with chunk `Reserved(s)` handed out. */
  lemma StartKeeps(n: nat, pg: seq<Page>, pg': seq<Page>, mem: seq<Word>, mem': seq<Word>, c: seq<Cell>,
                   lists: seq<seq<nat>>, t: seq<set<nat>>, p: nat, s: nat, w: nat)
    requires PageInv(n, pg, c, lists) && ChunkInv(n, pg, mem, c, lists, t)
    requires s < SLOTS && p < n && c[p] == Cell(p, 1, Whole) && lists[s] == []
    requires pg' == pg[p := Page(w, n + s, Addr(n + s) + TagOf(s))][n + s := pg[n + s].(next := p)]
    requires |mem'| == |mem| && PageBits(s, w, mem', p, {Reserved(s)}) && HasRoom(s, {Reserved(s)})
    requires forall k: nat {:trigger mem'[k]} :: k < 512 * n && !(512 * p <= k < 512 * p + 512) ==> mem'[k] == mem[k]
    ensures PageInv(n, pg', c[p := Cell(p, 1, Chunked(s))], lists[s := [p]])
    ensures ChunkInv(n, pg', mem', c[p := Cell(p, 1, Chunked(s))], lists[s := [p]], t[p := {Reserved(s)}])
  {
    var c', lists', t' := c[p := Cell(p, 1, Chunked(s))], lists[s := [p]], t[p := {Reserved(s)}];
    StartSlot(n, pg, c, lists, s, p, w, pg');
    OthersKeep(n, pg, pg', mem, mem', c, c', lists, lists', t, t', p);
    forall q: nat | q < n ensures ChunkOk(pg', mem', c', lists', t', q) {}
  }

  lemma StatsStart(st: seq<Stat>, c: seq<Cell>, t: seq<set<nat>>, p: nat, s: nat, st': seq<Stat>)
    requires StatsOk(st, c, t) && p < |c| && s < SLOTS && c[p].kind.Whole? && t[p] == {} && |st'| == SLOTS
    requires forall k: nat {:trigger st'[k]} :: k < SLOTS ==>
      st'[k] == if k == s then st[k].(total := (st[k].total + Capacity(s)) % U32, used := (st[k].used + 1) % U32)
          else st[k]
    ensures StatsOk(st', c[p := Cell(p, 1, Chunked(s))], t[p := {Reserved(s)}])
  {
    var c', t' := c[p := Cell(p, 1, Chunked(s))], t[p := {Reserved(s)}];
    assert c[p := c[p]] == c;
    forall k: nat | k < SLOTS ensures st'[k].used == Used(c', t', k) % U32 && st'[k].total == Total(c', k) % U32 {
      assert st[k].used == Used(c, t, k) % U32 && st[k].total == Total(c, k) % U32;
      CountsSwitch(c, t, p, Cell(p, 1, Chunked(s)), c[p], s, k);
      UsedChanges(c', t, p, {Reserved(s)}, k);
      StatStarts(Used(c, t, k), Used(c', t', k), Total(c, k), Total(c', k), Capacity(s), st[k], st'[k], k == s);
    }
  }

  lemma StatStarts(u: nat, u': nat, m: nat, m': nat, room: nat, x: Stat, x': Stat, mine: bool)
    requires x.used == u % U32 && x.total == m % U32
    requires if mine then u' == u + 1 && m' == m + room else u' == u && m' == m
    requires x' == if mine then x.(total := (x.total + room) % U32, used := (x.used + 1) % U32) else x
    ensures x'.used == u' % U32 && x'.total == m' % U32
  {
  }

  lemma TurnedKeepsFree(c: seq<Cell>, p: nat, s: nat)
    requires p < |c| && !c[p].kind.Free?
    ensures FreePages(c[p := Cell(p, 1, Chunked(s))]) == FreePages(c)
  {
    FreePagesAgree(c, c[p := Cell(p, 1, Chunked(s))]);
  }

  /** Starting a page keeps the whole invariant. */
  lemma StartIsKept(n: nat, pg: seq<Page>, pg': seq<Page>, mem: seq<Word>, mem': seq<Word>, c: seq<Cell>,
                    lists: seq<seq<nat>>, t: seq<set<nat>>, p: nat, s: nat, w: nat, st: seq<Stat>, st': seq<Stat>)
    requires PageInv(n, pg, c, lists) && ChunkInv(n, pg, mem, c, lists, t) && StatsOk(st, c, t)
    requires s < SLOTS && p < n && c[p] == Cell(p, 1, Whole) && lists[s] == []
    requires pg' == pg[p := Page(w, n + s, Addr(n + s) + TagOf(s))][n + s := pg[n + s].(next := p)]
    requires |mem'| == |mem| && PageBits(s, w, mem', p, {Reserved(s)}) && HasRoom(s, {Reserved(s)})
    requires forall k: nat {:trigger mem'[k]} :: k < 512 * n && !(512 * p <= k < 512 * p + 512) ==> mem'[k] == mem[k]
    requires var x := st[s]; st' == st[s := x.(total := (x.total + Capacity(s)) % U32, used := (x.used + 1) % U32)]
    ensures PageInv(n, pg', c[p := Cell(p, 1, Chunked(s))], lists[s := [p]])
    ensures ChunkInv(n, pg', mem', c[p := Cell(p, 1, Chunked(s))], lists[s := [p]], t[p := {Reserved(s)}])
    ensures StatsOk(st', c[p := Cell(p, 1, Chunked(s))], t[p := {Reserved(s)}])
    ensures FreePages(c[p := Cell(p, 1, Chunked(s))]) == FreePages(c)
  {
    assert ChunkOk(pg, mem, c, lists, t, p);
    StatsStart(st, c, t, p, s, st');
    StartKeeps(n, pg, pg', mem, mem', c, lists, t, p, s, w);
    TurnedKeepsFree(c, p, s);
  }

  // What each step does to the live blocks

  /** `b` was not live, and is the only thing that became live. */
  ghost predicate TookBlock(c: seq<Cell>, t: seq<set<nat>>, c': seq<Cell>, t': seq<set<nat>>, b: Block)
    requires |t| == |c| && |t'| == |c'|
  {
    && IsLive(c', t', b) && !IsLive(c, t, b)
    && forall x {:trigger IsLive(c', t', x)} {:trigger IsLive(c, t, x)} ::
        x != b ==> (IsLive(c', t', x) <==> IsLive(c, t, x))
  }

  lemma TookRun(c: seq<Cell>, t: seq<set<nat>>, p: nat, want: nat)
    requires |t| == |c| && Tiled(c) && FreeHead(c, p) && 0 < want <= c[p].len
    ensures TookBlock(c, t, AllocCells(c, p, want), t, Pages(p, want))
  {
    forall q: nat | q < |c| && InRun(c[p], q) ensures c[q] == c[p] { SameRun(c, p, q); }
    var c' := AllocCells(c, p, want);
    forall x | x != Pages(p, want) ensures IsLive(c', t, x) <==> IsLive(c, t, x) {}
    assert InRun(c[p], p);
  }

  lemma TookChunk(c: seq<Cell>, t: seq<set<nat>>, p: nat, s: nat, i: nat)
    requires |t| == |c| && p < |c| && c[p].kind == Chunked(s) && i !in t[p]
    ensures TookBlock(c, t, c, t[p := t[p] + {i}], Chunk(p, s, i))
  {
  }

  lemma TookFirstChunk(c: seq<Cell>, t: seq<set<nat>>, c1: seq<Cell>, p: nat, s: nat, i: nat)
    requires |t| == |c| == |c1| && Tiled(c) && FreeHead(c, p) && 0 < c[p].len && c1 == AllocCells(c, p, 1)
    ensures TookBlock(c, t, c1[p := Cell(p, 1, Chunked(s))], t[p := {i}], Chunk(p, s, i))
  {
    forall q: nat | q < |c| && InRun(c[p], q) ensures c[q] == c[p] { SameRun(c, p, q); }
    var c', t' := c1[p := Cell(p, 1, Chunked(s))], t[p := {i}];
    forall x | x != Chunk(p, s, i) ensures IsLive(c', t', x) <==> IsLive(c, t, x) {}
    assert InRun(c[p], p);
  }

  /** No page of slot `s` has room, and no page is free. */
  ghost predicate SlotExhausted(c: seq<Cell>, t: seq<set<nat>>, s: nat)
    requires |t| == |c|
  {
    && (forall p: nat {:trigger c[p]} :: p < |c| && c[p].kind == Chunked(s) ==> !HasRoom(s, t[p]))
    && (forall p: nat {:trigger c[p]} :: p < |c| ==> !c[p].kind.Free?)
  }

  /** A page on a slot list has room, so its slot is not exhausted. */
  lemma ListHasRoom(n: nat, pg: seq<Page>, mem: seq<Word>, c: seq<Cell>, lists: seq<seq<nat>>, t: seq<set<nat>>, s: nat,
      p: nat)
    requires PageInv(n, pg, c, lists) && ChunkInv(n, pg, mem, c, lists, t) && s < SLOTS && p in lists[s]
    ensures p < n && c[p].kind == Chunked(s) && HasRoom(s, t[p]) && !SlotExhausted(c, t, s)
  {
    assert ListOk(n, pg, c, s, lists[s]);
    assert MayList(c, s, p);
    assert ChunkOk(pg, mem, c, lists, t, p);
  }

  /** With an empty slot list, only a free page can serve the slot. */
  lemma EmptyListFull(n: nat, pg: seq<Page>, mem: seq<Word>, c: seq<Cell>, lists: seq<seq<nat>>, t: seq<set<nat>>,
      s: nat)
    requires PageInv(n, pg, c, lists) && ChunkInv(n, pg, mem, c, lists, t) && s < SLOTS && lists[s] == []
    ensures SlotExhausted(c, t, s) <==> forall a {:trigger FreeHead(c, a)} :: FreeHead(c, a) ==> c[a].len < 1
  {
    forall p: nat | p < n && c[p].kind == Chunked(s) ensures !HasRoom(s, t[p]) {
      assert ChunkOk(pg, mem, c, lists, t, p);
    }
    if forall a {:trigger FreeHead(c, a)} :: FreeHead(c, a) ==> c[a].len < 1 {
      forall p: nat | p < n ensures !c[p].kind.Free? {
        HeadIsOwn(c, p);
        assert InRun(c[p], p);
        assert !FreeHead(c, c[p].head);
      }
    }
  }

  // Freeing a chunk

  /** The two tests for a page that is on no list: its missing link, and for an exact page its full word. */
  lemma UnlistedTest(n: nat, pg: seq<Page>, mem: seq<Word>, c: seq<Cell>, lists: seq<seq<nat>>, t: seq<set<nat>>,
                     p: nat, s: nat)
    requires PageInv(n, pg, c, lists) && ChunkInv(n, pg, mem, c, lists, t) && p < n && c[p].kind == Chunked(s)
    ensures s < SLOTS && (pg[p].next == NULL <==> p !in lists[s])
    ensures s == 3 ==> (pg[p].slab == BUSY <==> p !in lists[s])
  {
    assert ChunkOk(pg, mem, c, lists, t, p) && PageOk(pg, c, lists, p);
    FullTest(s, pg[p].slab, mem, p, t[p]);
  }

  /** A page that was full is back on its slot list. */
  lemma EnterKeeps(n: nat, pg: seq<Page>, pg': seq<Page>, mem: seq<Word>, c: seq<Cell>, lists: seq<seq<nat>>,
                   lists': seq<seq<nat>>, t: seq<set<nat>>, p: nat, s: nat)
    requires ChunkInv(n, pg, mem, c, lists, t) && p < n && c[p].kind == Chunked(s) && s < SLOTS
    requires PageInv(n, pg', c, lists') && p in lists'[s] && SlabsKept(c, pg, pg', NULL) && |lists'| == 10
    requires forall l: nat, q: nat {:trigger q in lists'[l]} ::
        l < SLOTS && q != p ==> (q in lists'[l] <==> q in lists[l])
    ensures Marking(n, pg', mem, c, lists', t, p, s)
  {
    assert ChunkOk(pg, mem, c, lists, t, p);
    OthersKeep(n, pg, pg', mem, mem, c, c, lists, lists', t, t, p);
  }

  /** Between unmarking a chunk of page `p`, which is on its list, and releasing the page if it is empty. */
  ghost predicate Clearing(n: nat, pg: seq<Page>, mem: seq<Word>, c: seq<Cell>, lists: seq<seq<nat>>, t: seq<set<nat>>,
                           p: nat, s: nat, i: nat) {
    && PageInv(n, pg, c, lists) && ChunkInvBut(n, pg, mem, c, lists, t, p) && p < n && s < SLOTS
    && c[p].kind == Chunked(s) && p in lists[s] && i !in t[p] && Reserved(s) <= i < Chunks(s)
    && PageBits(s, pg[p].slab, mem, p, t[p])
  }

  lemma ClearKeeps(n: nat, pg: seq<Page>, mem: seq<Word>, c: seq<Cell>, lists: seq<seq<nat>>, t: seq<set<nat>>,
                   p: nat, s: nat, i: nat, pg': seq<Page>, mem': seq<Word>, t': seq<set<nat>>)
    requires Marking(n, pg, mem, c, lists, t, p, s) && i in t[p]
    requires s < 3 ==> 512 * p + i / 64 < |mem|
    requires pg' == pg[p := pg[p].(slab := ClearSlab(s, pg[p].slab, i))] && mem' == ClearMem(s, mem, p, i)
    requires t' == t[p := t[p] - {i}]
    ensures Clearing(n, pg', mem', c, lists, t', p, s, i)
  {
    SlabChange(n, pg, c, lists, p, ClearSlab(s, pg[p].slab, i));
    ClearChunk(s, pg[p].slab, mem, p, t[p], i);
    Tables(s);
    OthersKeep(n, pg, pg', mem, mem', c, c, lists, lists, t, t', p);
  }

  /** A page that still has chunks in use stays, with room. */
  lemma ClearedStays(n: nat, pg: seq<Page>, mem: seq<Word>, c: seq<Cell>, lists: seq<seq<nat>>, t: seq<set<nat>>,
                     p: nat, s: nat, i: nat)
    requires Clearing(n, pg, mem, c, lists, t, p, s, i) && t[p] != {}
    ensures ChunkInv(n, pg, mem, c, lists, t)
  {
    assert HasRoom(s, t[p]);
    forall q: nat | q < n ensures ChunkOk(pg, mem, c, lists, t, q) {}
  }

  /** The page is a run of its own. */
  lemma ClearingCell(n: nat, pg: seq<Page>, mem: seq<Word>, c: seq<Cell>, lists: seq<seq<nat>>, t: seq<set<nat>>,
      p: nat, s: nat, i: nat)
    requires Clearing(n, pg, mem, c, lists, t, p, s, i)
    ensures Tiled(c) && Coalesced(c) && |c| == |t| == n && p < n && s < SLOTS && c[p] == Cell(p, 1, Chunked(s))
  {
    assert PageOk(pg, c, lists, p) && InRun(c[p], p);
  }

  /** An empty page has gone back to the page layer. */
  lemma ClearedReleases(n: nat, pg: seq<Page>, pg': seq<Page>, mem: seq<Word>, c: seq<Cell>, lists: seq<seq<nat>>,
                        lists': seq<seq<nat>>, t: seq<set<nat>>, p: nat, s: nat, i: nat)
    requires Clearing(n, pg, mem, c, lists, t, p, s, i) && t[p] == {} && c[p].head == p
    requires PageInv(n, pg', FreeCells(c, p), lists') && SlotsWithout(lists, lists', p)
    requires SlabsKept(FreeCells(c, p), pg, pg', NULL)
    ensures ChunkInv(n, pg', mem, FreeCells(c, p), lists', t)
  {
    var c' := FreeCells(c, p);
    assert PageOk(pg, c, lists, p);
    PageFreed(c, p);
    OthersKeep(n, pg, pg', mem, mem, c, c', lists, lists', t, t, p);
    forall q: nat | q < n ensures ChunkOk(pg', mem, c', lists', t, q) {}
  }

  lemma PageFreed(c: seq<Cell>, p: nat)
    requires Tiled(c) && Coalesced(c) && p < |c| && c[p].head == p && c[p].len == 1 && !c[p].kind.Free?
    ensures FreeCells(c, p)[p].kind.Free?
    ensures forall q: nat {:trigger FreeCells(c, p)[q]} :: q < |c| && q != p ==>
      c[q].kind.Chunked? || FreeCells(c, p)[q].kind.Chunked? ==> FreeCells(c, p)[q] == c[q]
  {
    FreeingCells(c, p);
  }

  /** Freeing a run changes no other allocated cell. */
  lemma FreeingCells(c: seq<Cell>, p: nat)
    requires Tiled(c) && Coalesced(c) && p < |c| && c[p].head == p && !c[p].kind.Free?
    ensures FreeCells(c, p)[p].kind.Free?
    ensures forall q: nat {:trigger FreeCells(c, p)[q]} :: q < |c| ==> !InRun(c[p], q) ==>
      !c[q].kind.Free? || !FreeCells(c, p)[q].kind.Free? ==> FreeCells(c, p)[q] == c[q]
    ensures forall q: nat {:trigger FreeCells(c, p)[q]} ::
        q < |c| && InRun(c[p], q) ==> FreeCells(c, p)[q].kind.Free? && c[q] == c[p]
  {
    FreedExactly(c, p);
    assert InRun(c[p], p);
    forall q: nat | q < |c| && InRun(c[p], q) ensures c[q] == c[p] { SameRun(c, p, q); }
  }

  lemma StatsClear(st: seq<Stat>, c: seq<Cell>, t: seq<set<nat>>, p: nat, s: nat, i: nat, st': seq<Stat>)
    requires |t| == |c| && p < |c| && s < SLOTS && c[p].kind == Chunked(s) && i !in t[p]
    requires StatsOk(st, c, t[p := t[p] + {i}]) && st' == st[s := st[s].(used := (st[s].used + U32 - 1) % U32)]
    ensures StatsOk(st', c, t)
  {
    var t' := t[p := t[p] + {i}];
    forall k: nat | k < SLOTS ensures st'[k].used == Used(c, t, k) % U32 && st'[k].total == Total(c, k) % U32 {
      UsedChanges(c, t, p, t[p] + {i}, k);
      assert st[k].used == Used(c, t', k) % U32 && st[k].total == Total(c, k) % U32;
      CounterDrops(Used(c, t', k), if k == s then 1 else 0, st[k].used);
    }
  }

  /** Subtracting in 32 bits. */
  lemma CounterDrops(u: nat, d: nat, x: nat)
    requires d <= u && d < U32 && x == u % U32
    ensures (x + U32 - d) % U32 == (u - d) % U32
  {
  }

  lemma StatsRelease(st: seq<Stat>, c: seq<Cell>, t: seq<set<nat>>, p: nat, s: nat, st': seq<Stat>)
    requires StatsOk(st, c, t) && Tiled(c) && Coalesced(c) && p < |c| && s < SLOTS && c[p] == Cell(p, 1, Chunked(s))
    requires t[p] == {}
    requires st' == st[s := st[s].(total := (st[s].total + U32 - Capacity(s)) % U32)]
    ensures StatsOk(st', FreeCells(c, p), t)
  {
    var c' := FreeCells(c, p);
    FreeingCells(c, p);
    Tables(s);
    hide Tiled, Coalesced, FreeCells, Used, Total, Capacity;
    forall k: nat | k < SLOTS ensures st'[k].used == Used(c', t, k) % U32 && st'[k].total == Total(c', k) % U32 {
      assert st[k].used == Used(c, t, k) % U32 && st[k].total == Total(c, k) % U32;
      CountsReleased(c, c', t, p, s, k);
      CounterDrops(Total(c, k), if k == s then Capacity(s) else 0, st[k].total);
    }
  }

  /** Slot `s` loses the room of the page. */
  lemma CountsReleased(c: seq<Cell>, c': seq<Cell>, t: seq<set<nat>>, p: nat, s: nat, k: nat)
    requires |t| == |c| == |c'| && p < |c| && t[p] == {} && c[p].kind == Chunked(s) && c'[p].kind.Free?
    requires forall q: nat {:trigger c'[q]} ::
      q < |c| && q != p && (c[q].kind.Chunked? || c'[q].kind.Chunked?) ==> c'[q] == c[q]
    ensures Used(c', t, k) == Used(c, t, k) && Total(c', k) + (if k == s then Capacity(s) else 0) == Total(c, k)
  {
    hide Used, Total, Capacity;
    assert c[p := c[p]] == c;
    CountsSwitch(c, t, p, c[p], c'[p], s, k);
    CountsKeep(c[p := c'[p]], c', t, k);
  }

  /** `b` was live, and is the only thing that is not any more. */
  ghost predicate GaveBlock(c: seq<Cell>, t: seq<set<nat>>, c': seq<Cell>, t': seq<set<nat>>, b: Block)
    requires |t| == |c| && |t'| == |c'|
  {
    && IsLive(c, t, b) && !IsLive(c', t', b)
    && forall x {:trigger IsLive(c', t', x)} {:trigger IsLive(c, t, x)} ::
        x != b ==> (IsLive(c', t', x) <==> IsLive(c, t, x))
  }

  lemma GaveRun(c: seq<Cell>, t: seq<set<nat>>, p: nat)
    requires |t| == |c| && Tiled(c) && Coalesced(c) && p < |c| && c[p].head == p && c[p].kind.Whole?
    ensures GaveBlock(c, t, FreeCells(c, p), t, Pages(p, c[p].len))
  {
    FreeingCells(c, p);
    var c' := FreeCells(c, p);
    forall x | x != Pages(p, c[p].len) ensures IsLive(c', t, x) <==> IsLive(c, t, x) {}
  }

  lemma GaveChunk(c: seq<Cell>, t: seq<set<nat>>, p: nat, s: nat, i: nat)
    requires |t| == |c| && p < |c| && c[p].kind == Chunked(s) && i in t[p]
    ensures GaveBlock(c, t, c, t[p := t[p] - {i}], Chunk(p, s, i))
  {
  }

  lemma GaveLastChunk(c: seq<Cell>, t: seq<set<nat>>, p: nat, s: nat, i: nat)
    requires |t| == |c| && Tiled(c) && Coalesced(c) && p < |c| && c[p] == Cell(p, 1, Chunked(s)) && t[p] == {}
    ensures GaveBlock(c, t[p := t[p] + {i}], FreeCells(c, p), t, Chunk(p, s, i))
  {
    FreeingCells(c, p);
    var c', t' := FreeCells(c, p), t[p := t[p] + {i}];
    forall x | x != Chunk(p, s, i) ensures IsLive(c', t, x) <==> IsLive(c, t', x) {}
  }

  /** Freeing whole pages does not reach the chunk layer. */
  lemma FreeKeepsChunks(n: nat, pg: seq<Page>, pg': seq<Page>, mem: seq<Word>, c: seq<Cell>, lists: seq<seq<nat>>,
                        lists': seq<seq<nat>>, t: seq<set<nat>>, st: seq<Stat>, p: nat)
    requires PageInv(n, pg, c, lists) && ChunkInv(n, pg, mem, c, lists, t) && StatsOk(st, c, t)
    requires p < n && c[p].head == p && c[p].kind.Whole?
    requires SlotsWithout(lists, lists', p) && SlabsKept(FreeCells(c, p), pg, pg', NULL)
    ensures ChunkInv(n, pg', mem, FreeCells(c, p), lists', t) && StatsOk(st, FreeCells(c, p), t)
  {
    var c' := FreeCells(c, p);
    FreeingCells(c, p);
    forall q: nat | q < n ensures ChunkOk(pg', mem, c', lists', t, q) { assert ChunkOk(pg, mem, c, lists, t, q); }
    forall k: nat | k < SLOTS ensures st[k].used == Used(c', t, k) % U32 && st[k].total == Total(c', k) % U32 {
      CountsKeep(c, c', t, k);
    }
  }

  /** No live block starts at `addr`. */
  ghost predicate NamesNothing(c: seq<Cell>, t: seq<set<nat>>, addr: int)
    requires |t| == |c|
  {
    forall x {:trigger IsLive(c, t, x)} :: IsLive(c, t, x) ==> Address(x) != addr
  }

  lemma NothingInRun(c: seq<Cell>, t: seq<set<nat>>, addr: nat)
    requires Shape(c, t) && addr / PAGESIZE < |c| && !c[addr / PAGESIZE].kind.Chunked?
    requires addr % PAGESIZE != 0 || c[addr / PAGESIZE].kind.Free? || c[addr / PAGESIZE].head != addr / PAGESIZE
    ensures NamesNothing(c, t, addr)
  {
    forall x | IsLive(c, t, x) ensures Address(x) != addr {
      if Address(x) == addr { NamedBlock(c, t, x, addr); }
    }
  }

  lemma NothingInChunk(c: seq<Cell>, t: seq<set<nat>>, addr: nat, s: nat)
    requires Shape(c, t) && addr / PAGESIZE < |c| && c[addr / PAGESIZE].kind == Chunked(s)
    requires (addr % PAGESIZE) % Size(s) != 0 || (addr % PAGESIZE) / Size(s) !in t[addr / PAGESIZE]
    ensures NamesNothing(c, t, addr)
  {
    forall x | IsLive(c, t, x) ensures Address(x) != addr {
      if Address(x) == addr { NamedBlock(c, t, x, addr); }
    }
  }

  lemma NothingOutside(c: seq<Cell>, t: seq<set<nat>>, addr: int)
    requires Shape(c, t) && !(0 <= addr < PAGESIZE * |c|)
    ensures NamesNothing(c, t, addr)
  {
    forall x | IsLive(c, t, x) ensures Address(x) != addr { LiveInside(c, t, x); }
  }

  // The initial state

  /** The page structures of a new pool of `n` pages: one free run, whose last page does not point back. */
  ghost predicate Fresh(n: nat, pg: seq<Page>) {
    && n > 0 && |pg| == n + 10
    && pg[0] == Page(n, n + 9, Addr(n + 9))
    && (forall p {:trigger pg[p]} :: 0 < p < n ==> pg[p] == Page(0, NULL, 0))
    && (forall s: nat {:trigger pg[n + s]} :: s < SLOTS ==> pg[n + s] == Page(0, n + s, 0))
    && pg[n + 9].next == 0
  }

  const NOLISTS: seq<seq<nat>> := [[], [], [], [], [], [], [], [], [], [0]]

  lemma FreshIsValid(n: nat, pg: seq<Page>, mem: seq<Word>, st: seq<Stat>, c: seq<Cell>, t: seq<set<nat>>)
    requires Fresh(n, pg) && n < U32 && |mem| == 512 * n && |c| == n && |t| == n && |st| == SLOTS
    requires forall p {:trigger c[p]} :: 0 <= p < n ==> c[p] == Cell(0, n, Free)
    requires forall p {:trigger t[p]} :: 0 <= p < n ==> t[p] == {}
    requires forall s: nat {:trigger st[s]} :: s < SLOTS ==> st[s] == Stat(0, 0, 0, 0)
    ensures PageInv(n, pg, c, NOLISTS) && FreePages(c) == n
    ensures ChunkInv(n, pg, mem, c, NOLISTS, t) && StatsOk(st, c, t)
  {
    FreshPages(n, pg, c);
    FreePagesUniform(c, true);
    FreshChunks(n, pg, mem, c, t);
    forall s: nat | s < SLOTS ensures st[s].used == Used(c, t, s) % U32 && st[s].total == Total(c, s) % U32 {
      SumZero(UsedAt(c, t, s));
      SumZero(RoomAt(c, s));
    }
  }

  lemma FreshChunks(n: nat, pg: seq<Page>, mem: seq<Word>, c: seq<Cell>, t: seq<set<nat>>)
    requires |pg| == n + 10 && |mem| == 512 * n && |c| == n && |t| == n
    requires forall p {:trigger c[p]} :: 0 <= p < n ==> c[p].kind.Free?
    requires forall p {:trigger t[p]} :: 0 <= p < n ==> t[p] == {}
    ensures ChunkInv(n, pg, mem, c, NOLISTS, t)
  {
    forall p: nat | p < n ensures ChunkOk(pg, mem, c, NOLISTS, t, p) {}
  }

  lemma FreshPages(n: nat, pg: seq<Page>, c: seq<Cell>)
    requires Fresh(n, pg) && n < U32 && |c| == n
    requires forall p {:trigger c[p]} :: 0 <= p < n ==> c[p] == Cell(0, n, Free)
    ensures PageInv(n, pg, c, NOLISTS)
  {
    forall p | 0 < p < n ensures Joined(c, p) {}
    forall l: nat | l < 10 ensures ListOk(n, pg, c, l, NOLISTS[l]) { FreshListOk(n, pg, c, l); }
    forall p | 0 <= p < n ensures PageOk(pg, c, NOLISTS, p) {}
    assert 0 in NOLISTS[FREELIST];
  }

  lemma FreshListOk(n: nat, pg: seq<Page>, c: seq<Cell>, l: nat)
    requires Fresh(n, pg) && |c| == n && l < 10 && c[0] == Cell(0, n, Free)
    ensures ListOk(n, pg, c, l, NOLISTS[l])
  {
    if l < 9 {
      FreshList(n, pg, l);
      assert NOLISTS[l] == [];
    } else {
      FreshFree(n, pg);
      assert NOLISTS[l] == [0];
    }
  }

  lemma FreshList(n: nat, pg: seq<Page>, l: nat)
    requires Fresh(n, pg) && l < 9
    ensures Chain(pg, n + l, TagOf(l), [])
  {
    var c := Ring(n + l, []);
    assert c == [n + l, n + l] && pg[n + l].next == n + l;
    forall i | 0 <= i < |c| - 1 ensures Link(pg, c, TagOf(l), i) {}
  }

  lemma FreshFree(n: nat, pg: seq<Page>)
    requires Fresh(n, pg)
    ensures Chain(pg, n + 9, 0, [0])
  {
    var c := Ring(n + 9, [0]);
    forall i | 0 <= i < |c| - 1 ensures Link(pg, c, 0, i) {}
    forall i, j | 0 <= i < |c| - 1 && 0 <= j < |c| - 1 && i != j ensures Differ(c, i, j) {}
  }

  lemma {:induction false} SumZero(w: seq<nat>)
    requires forall i :: 0 <= i < |w| ==> w[i] == 0
    ensures Sum(w) == 0
  {
    if w != [] { SumZero(w[..|w| - 1]); }
  }

  /** When nothing is live, the counters are zero too. */
  lemma NothingLiveCounts(st: seq<Stat>, c: seq<Cell>, t: seq<set<nat>>, s: nat)
    requires Shape(c, t) && StatsOk(st, c, t) && s < SLOTS
    requires forall b {:trigger IsLive(c, t, b)} :: !IsLive(c, t, b)
    ensures st[s].used == 0 && st[s].total == 0
  {
    NothingLive(c, t);
    SumZero(UsedAt(c, t, s));
    SumZero(RoomAt(c, s));
  }

  /** What freeing reads off the structure of a slot's page. */
  lemma SlotOfPage(n: nat, pg: seq<Page>, mem: seq<Word>, c: seq<Cell>, lists: seq<seq<nat>>, t: seq<set<nat>>, p: nat)
    requires PageInv(n, pg, c, lists) && ChunkInv(n, pg, mem, c, lists, t) && p < n && c[p].kind.Chunked?
    ensures var s := c[p].kind.slot;
      && s < SLOTS && (pg[p].prev % 4 == 2 <==> s == 3) && (pg[p].prev % 4 == 3 <==> s < 3)
      && (s != 3 ==> Low(pg[p].slab, 4) == s + 3)
  {
    assert PageOk(pg, c, lists, p) && ChunkOk(pg, mem, c, lists, t, p);
    SlotShift(c[p].kind.slot, pg[p].slab, mem, p, t[p]);
  }
}
