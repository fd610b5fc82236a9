/** A pool hands out pieces of its blocks, front to back, and whole blocks for what is too large. */
module PoolBlocks {
  import opened Words

  /** Sizes of the structures at the start of a block, and of a cell on the list of large pieces. */
  const HEADER: nat := 72
  const LARGECELL: nat := 16
  const MAXSMALL: nat := 4095

  /** Memory comes in chunks, one for each call to the system's allocator; their first bytes are aligned. */
  datatype Address = Address(chunk: nat, at: nat)

  datatype Region = Region(chunk: nat, at: nat, len: nat)

  /** A block of the pool: its chunk, and where its free part begins. */
  datatype Block = Block(chunk: nat, last: nat, failed: nat)

  function AlignUp(x: nat): (r: nat)
    ensures r % 8 == 0 && x <= r < x + 8
  {
    (x + 7) / 8 * 8
  }

  /** The test of the code, whose difference of pointers has no sign. */
  predicate Room(m: nat, end: nat, size: nat) {
    (end - m) % WORD >= size
  }

  /** As long as the start is not behind the end, the test is right. */
  lemma RoomIsRoom(m: nat, end: nat, size: nat)
    requires m <= end < WORD
    ensures Room(m, end, size) <==> m + size <= end
  {
  }

  /** Behind the end, the test finds room for almost anything. */
  lemma RoomBehindEnd(m: nat, end: nat, size: nat)
    requires end < m < end + 8 && size <= WORD - 8
    ensures Room(m, end, size)
  {
    assert (end - m) % WORD == WORD + end - m;
  }

  /** The start of an aligned piece is never behind the end of the block, exactly if the end is aligned. */
  lemma AlignedEnd(end: nat)
    ensures (forall last: nat {:trigger AlignUp(last)} :: last <= end ==> AlignUp(last) <= end) <==> end % 8 == 0
  {
    if end % 8 == 0 {
      forall last: nat | last <= end ensures AlignUp(last) <= end {}
    } else {
      assert AlignUp(end) > end;
    }
  }

  predicate Apart(a: Region, b: Region) {
    a.len == 0 || b.len == 0 || a.chunk != b.chunk || a.at + a.len <= b.at || b.at + b.len <= a.at
  }

  predicate Inside(r: Region, chunks: seq<seq<Byte>>) {
    r.chunk < |chunks| && r.at + r.len <= |chunks[r.chunk]|
  }

  function Bytes(r: Region, chunks: seq<seq<Byte>>): seq<Byte>
    requires Inside(r, chunks)
  {
    chunks[r.chunk][r.at..r.at + r.len]
  }

  predicate BlockOk(b: Block, chunks: seq<seq<Byte>>, psize: nat) {
    b.chunk < |chunks| && |chunks[b.chunk]| == psize && HEADER <= b.last <= psize
  }

  /** What is live in a block lies between its header and its free part. */
  predicate Below(r: Region, b: Block) {
    r.chunk == b.chunk ==> HEADER <= r.at && r.at + r.len <= b.last
  }

  /** Live regions are inside their chunks, do not overlap, and leave the headers and free parts alone. */
  ghost predicate Inv(chunks: seq<seq<Byte>>, blocks: seq<Block>, live: set<Region>, psize: nat) {
    && (forall i {:trigger blocks[i]} :: 0 <= i < |blocks| ==> BlockOk(blocks[i], chunks, psize))
    && (forall i, j :: 0 <= i < j < |blocks| ==> blocks[i].chunk != blocks[j].chunk)
    && (forall r {:trigger Inside(r, chunks)} :: r in live ==> Inside(r, chunks))
    && (forall r, i {:trigger Below(r, blocks[i])} :: r in live && 0 <= i < |blocks| ==> Below(r, blocks[i]))
    && (forall a, b {:trigger Apart(a, b)} :: a in live && b in live && a != b ==> Apart(a, b))
  }

  /** `r` is new: it shares no byte with what was live. */
  ghost predicate New(live: set<Region>, r: Region) {
    forall a {:trigger Apart(a, r)} :: a in live ==> Apart(a, r)
  }

  /** The free part of block `i` begins behind a new region. */
  lemma TakeFromBlock(chunks: seq<seq<Byte>>, blocks: seq<Block>, live: set<Region>, psize: nat, i: nat, at: nat,
      size: nat)
    requires Inv(chunks, blocks, live, psize) && i < |blocks| && blocks[i].last <= at && at + size <= psize
    ensures var r := Region(blocks[i].chunk, at, size);
      Inv(chunks, blocks[i := blocks[i].(last := at + size)], live + {r}, psize) && New(live, r)
  {
    var r, blocks' := Region(blocks[i].chunk, at, size), blocks[i := blocks[i].(last := at + size)];
    assert BlockOk(blocks[i], chunks, psize);
    forall a | a in live ensures Apart(a, r) && Apart(r, a) { assert Below(a, blocks[i]); }
    forall a, j | a in live + {r} && 0 <= j < |blocks'| ensures Below(a, blocks'[j]) {
      if a in live { assert Below(a, blocks[j]); }
    }
    assert Inside(r, chunks);
  }

  /** More memory from the system disturbs nothing. */
  lemma MoreMemory(chunks: seq<seq<Byte>>, more: seq<Byte>, blocks: seq<Block>, live: set<Region>, psize: nat)
    requires Inv(chunks, blocks, live, psize)
    ensures Inv(chunks + [more], blocks, live, psize)
  {
    forall r | r in live ensures Inside(r, chunks + [more]) { assert Inside(r, chunks); }
  }

  /** A new chunk as a block, with a first piece of it handed out. */
  lemma NewBlock(chunks: seq<seq<Byte>>, more: seq<Byte>, blocks: seq<Block>, live: set<Region>, psize: nat, size: nat)
    requires Inv(chunks, blocks, live, psize) && |more| == psize && HEADER + size <= psize
    ensures var r := Region(|chunks|, HEADER, size);
      Inv(chunks + [more], blocks + [Block(|chunks|, HEADER + size, 0)], live + {r}, psize) && New(live, r)
  {
    MoreMemory(chunks, more, blocks, live, psize);
    var chunks', blocks0 := chunks + [more], blocks + [Block(|chunks|, HEADER, 0)];
    forall i | 0 <= i < |blocks| ensures blocks[i].chunk != |chunks| { assert BlockOk(blocks[i], chunks, psize); }
    forall r, i | r in live && 0 <= i < |blocks0| ensures Below(r, blocks0[i]) {
      assert Inside(r, chunks);
      if i < |blocks| { assert Below(r, blocks[i]); }
    }
    assert Inv(chunks', blocks0, live, psize);
    TakeFromBlock(chunks', blocks0, live, psize, |blocks|, HEADER, size);
    assert blocks0[|blocks| := blocks0[|blocks|].(last := HEADER + size)] == blocks + [Block(|chunks|, HEADER + size,
        0)];
  }

  /** A new chunk handed out as a whole. */
  lemma NewLarge(chunks: seq<seq<Byte>>, more: seq<Byte>, blocks: seq<Block>, live: set<Region>, psize: nat)
    requires Inv(chunks, blocks, live, psize)
    ensures var r := Region(|chunks|, 0, |more|);
      Inv(chunks + [more], blocks, live + {r}, psize) && New(live, r)
  {
    MoreMemory(chunks, more, blocks, live, psize);
    var chunks', r := chunks + [more], Region(|chunks|, 0, |more|);
    forall a | a in live ensures Apart(a, r) && Apart(r, a) { assert Inside(a, chunks); }
    forall a, i | a in live + {r} && 0 <= i < |blocks| ensures Below(a, blocks[i]) {
      assert BlockOk(blocks[i], chunks, psize);
      if a in live { assert Below(a, blocks[i]); }
    }
    assert Inside(r, chunks');
  }

  /** The region that ends where the free part of block `i` begins can grow into it. */
  lemma GrowLast(chunks: seq<seq<Byte>>, blocks: seq<Block>, live: set<Region>, psize: nat, i: nat, r: Region,
      more: nat)
    requires Inv(chunks, blocks, live, psize) && i < |blocks| && r in live && r.len > 0
    requires r.chunk == blocks[i].chunk && r.at + r.len == blocks[i].last && blocks[i].last + more <= psize
    ensures var r' := r.(len := r.len + more);
      Inv(chunks, blocks[i := blocks[i].(last := blocks[i].last + more)], live - {r} + {r'}, psize)
          && New(live - {r}, r')
  {
    var r', blocks' := r.(len := r.len + more), blocks[i := blocks[i].(last := blocks[i].last + more)];
    assert BlockOk(blocks[i], chunks, psize) && Below(r, blocks[i]);
    forall a | a in live - {r} ensures Apart(a, r') && Apart(r', a) {
      assert Below(a, blocks[i]) && Apart(a, r);
    }
    forall a, j | a in live - {r} + {r'} && 0 <= j < |blocks'| ensures Below(a, blocks'[j]) {
      if a in live - {r} { assert Below(a, blocks[j]); } else { assert Below(r, blocks[j]); }
    }
    assert Inside(r', chunks);
  }

  /** Where a piece would begin in a block. */
  function From(b: Block, align: bool): nat {
    if align then AlignUp(b.last) else b.last
  }

  /** The first block, from `p` on, in which the test finds room. */
  function FirstRoom(blocks: seq<Block>, p: nat, psize: nat, size: nat, align: bool): (i: nat)
    requires p <= |blocks|
    ensures p <= i <= |blocks|
    ensures i < |blocks| ==> Room(From(blocks[i], align), psize, size)
    decreases |blocks| - p
  {
    if p == |blocks| || Room(From(blocks[p], align), psize, size) then p
    else FirstRoom(blocks, p + 1, psize, size, align)
  }

  /** A piece will be inside its block: in the block where the test finds room, it does not begin behind the end; or
      a new block is large enough. */
  predicate Fits(blocks: seq<Block>, current: nat, psize: nat, size: nat, align: bool)
    requires current <= |blocks|
  {
    var i := FirstRoom(blocks, current, psize, size, align);
    if i < |blocks| then From(blocks[i], align) <= psize else HEADER + size <= psize
  }

  /** Blocks of this size never overrun: they end aligned, and a list cell fits into a new one. */
  predicate Proper(psize: nat) {
    psize % 8 == 0 && psize >= HEADER + LARGECELL
  }

  lemma ProperFits(chunks: seq<seq<Byte>>, blocks: seq<Block>, current: nat, live: set<Region>, psize: nat, size: nat,
                   align: bool)
    requires Inv(chunks, blocks, live, psize) && Proper(psize) && current <= |blocks| && HEADER + size <= psize
    ensures Fits(blocks, current, psize, size, align)
  {
    var i := FirstRoom(blocks, current, psize, size, align);
    if i < |blocks| {
      assert BlockOk(blocks[i], chunks, psize);
      AlignedEnd(psize);
    }
  }

  /** Memory after bytes have been written to an address. */
  function Written(chunks: seq<seq<Byte>>, to: Address, data: seq<Byte>): (r: seq<seq<Byte>>)
    requires Inside(Region(to.chunk, to.at, |data|), chunks)
    ensures |r| == |chunks| && forall i :: 0 <= i < |chunks| ==> |r[i]| == |chunks[i]|
  {
    var c := chunks[to.chunk];
    var d := c[..to.at] + data + c[to.at + |data|..];
    assert |d| == |c|;
    chunks[to.chunk := d]
  }

  lemma WrittenBytes(chunks: seq<seq<Byte>>, to: Address, data: seq<Byte>)
    requires Inside(Region(to.chunk, to.at, |data|), chunks)
    ensures Written(chunks, to, data)[to.chunk][to.at..to.at + |data|] == data
  {
  }

  lemma WrittenElsewhere(chunks: seq<seq<Byte>>, to: Address, data: seq<Byte>, r: Region)
    requires Inside(Region(to.chunk, to.at, |data|), chunks) && Inside(r, chunks)
    requires Apart(r, Region(to.chunk, to.at, |data|))
    ensures Inside(r, Written(chunks, to, data)) && Bytes(r, Written(chunks, to, data)) == Bytes(r, chunks)
  {
    if r.chunk == to.chunk && r.len > 0 && |data| > 0 {
      var c, d := chunks[r.chunk], Written(chunks, to, data)[r.chunk];
      assert forall i :: 0 <= i < to.at ==> d[i] == c[i];
      assert forall i :: to.at + |data| <= i < |c| ==> d[i] == c[i];
    }
  }

  lemma WrittenKeeps(chunks: seq<seq<Byte>>, to: Address, data: seq<Byte>, blocks: seq<Block>, live: set<Region>,
                     psize: nat)
    requires Inside(Region(to.chunk, to.at, |data|), chunks) && Inv(chunks, blocks, live, psize)
    ensures Inv(Written(chunks, to, data), blocks, live, psize)
  {
    var chunks' := Written(chunks, to, data);
    forall i | 0 <= i < |blocks| ensures BlockOk(blocks[i], chunks', psize) { assert BlockOk(blocks[i], chunks, psize);
        }
    forall r | r in live ensures Inside(r, chunks') { assert Inside(r, chunks); }
  }

  /** The blocks from number `c` on and before `p` have failed once more, and searches begin behind the last of them
      that had failed five times already. */
  ghost predicate Counted(b: seq<Block>, c: nat, b1: seq<Block>, c1: nat, p: nat) {
    && c <= c1 && |b1| == |b| && p <= |b| && (c1 > c ==> c1 <= p && b[c1 - 1].failed >= 5)
    && (forall i :: c1 <= i < p ==> b[i].failed < 5)
    && (forall i :: 0 <= i < |b| ==> b1[i] == b[i].(failed := b[i].failed + if c <= i < p then 1 else 0))
  }

  /** The sizes that never overrun, in bytes. */
  lemma ProperSizes(psize: nat)
    ensures Proper(psize) <==> psize % 8 == 0 && psize >= 88
  {
  }

  class Pool {
    /** All memory that has come from the system so far. */
    var chunks: seq<seq<Byte>>
    /** The chain of blocks, and the one where searches begin. */
    var blocks: seq<Block>
    var current: nat
    const psize: nat
    const max: nat
    /** What has been handed out, the cells of the list of large pieces among it. */
    ghost var live: set<Region>

    ghost predicate Valid()
      reads this
    {
      && HEADER <= psize < WORD
      && max == (if psize - HEADER < MAXSMALL then psize - HEADER else MAXSMALL)
      && current < |blocks| && Inv(chunks, blocks, live, psize)
    }

    /** A pool with blocks of `size` bytes. */
    constructor (size: nat)
      requires HEADER <= size < WORD
      ensures Valid() && psize == size && live == {} && blocks == [Block(0, 72, 0)] && current == 0
      ensures max == if psize < 72 + 4095 then psize - 72 else 4095
    {
      chunks, blocks, current := [seq(size, _ => 0)], [Block(0, HEADER, 0)], 0;
      psize, max, live := size, if size - HEADER < MAXSMALL then size - HEADER else MAXSMALL, {};
    }

    /** The new region's bytes are nobody else's, and the bytes of all others stay as they are. */
    twostate predicate Handed(a: Address, size: nat)
      reads this
    {
      && old(chunks) <= chunks && live >= old(live) + {Region(a.chunk, a.at, size)}
      && New(old(live), Region(a.chunk, a.at, size)) && Inside(Region(a.chunk, a.at, size), chunks)
    }

    /** A piece of the first block, from the current one on, in which the test finds room; or of a new block. The
        pool stays valid exactly if the piece is inside its block. */
    method PallocSmall(size: nat, align: bool) returns (a: Address, inside: bool)
      requires Valid()
      modifies this
      ensures inside <==> Fits(old(blocks), old(current), psize, size, align)
      ensures Valid() <==> inside
      ensures inside ==> Handed(a, size) && (align ==> a.at % 8 == 0)
      ensures inside ==> live == old(live) + {Region(a.chunk, a.at, size)}
      ensures var i := FirstRoom(old(blocks), old(current), psize, size, align);
        if i < |old(blocks)| then
          && a == Address(old(blocks)[i].chunk, From(old(blocks)[i], align)) && current == old(current)
          && blocks == old(blocks)[i := old(blocks)[i].(last := a.at + size)]
        else a == Address(|old(chunks)|, 72) && Extended(old(blocks), old(current), a.chunk, size)
    {
      var p := current;
      while p < |blocks|
        invariant current <= p <= |blocks| && unchanged(this)
        invariant FirstRoom(blocks, current, psize, size, align) == FirstRoom(blocks, p, psize, size, align)
      {
        var m := From(blocks[p], align);
        if Room(m, psize, size) {
          a, inside := TakePiece(p, m, size);
          return;
        }
        p := p + 1;
      }
      a, inside := PallocBlock(size);
    }

    /** The piece of a block at `m`, where the test has found room. */
    method TakePiece(p: nat, m: nat, size: nat) returns (a: Address, inside: bool)
      requires Valid() && p < |blocks| && blocks[p].last <= m && Room(m, psize, size)
      modifies this`blocks, this`live
      ensures a == Address(old(blocks)[p].chunk, m) && (inside <==> m <= psize) && (Valid() <==> inside)
      ensures inside ==> Handed(a, size) && live == old(live) + {Region(a.chunk, a.at, size)}
      ensures blocks == old(blocks)[p := old(blocks)[p].(last := m + size)]
    {
      assert BlockOk(blocks[p], chunks, psize);
      a, inside := Address(blocks[p].chunk, m), m <= psize;
      if inside {
        RoomIsRoom(m, psize, size);
        TakeFromBlock(chunks, blocks, live, psize, p, m, size);
      }
      blocks, live := blocks[p := blocks[p].(last := m + size)], live + {Region(a.chunk, m, size)};
      assert inside ==> Inside(Region(a.chunk, a.at, size), chunks);
      assert !inside ==> !BlockOk(blocks[p], chunks, psize);
    }

    /** There is a new block at the end, with a piece behind its header, and failures have been counted. */
    ghost predicate Extended(b: seq<Block>, c: nat, chunk: nat, size: nat)
      reads this
    {
      && |blocks| == |b| + 1 && blocks[|b|] == Block(chunk, 72 + size, 0)
      && |b| > 0 && Counted(b, c, blocks[..|b|], current, |b| - 1)
    }

    /** A new block; the blocks searched in vain come nearer to being passed over. */
    method PallocBlock(size: nat) returns (a: Address, inside: bool)
      requires Valid()
      modifies this
      ensures (inside <==> HEADER + size <= psize) && (Valid() <==> inside)
      ensures inside ==> Handed(a, size) && live == old(live) + {Region(a.chunk, a.at, size)}
      ensures a == Address(|old(chunks)|, 72) && Extended(old(blocks), old(current), a.chunk, size)
    {
      ghost var c, b := chunks, blocks;
      var more: seq<Byte> := seq(psize, _ => 0);
      a, inside := Address(|chunks|, HEADER), HEADER + size <= psize;
      chunks := chunks + [more];
      MoreMemory(c, more, b, live, psize);
      CountFailures();
      FailuresKeep(c, b, blocks, live, psize);
      if inside { NewBlock(c, more, blocks, live, psize, size); }
      ghost var counted := blocks;
      blocks, live := blocks + [Block(a.chunk, HEADER + size, 0)], live + {Region(a.chunk, HEADER, size)};
      assert blocks[..|b|] == counted;
      assert inside ==> Inside(Region(a.chunk, HEADER, size), chunks);
      assert !inside ==> !BlockOk(blocks[|blocks| - 1], chunks, psize);
    }

    /** All blocks from the current one on, but for the last, have failed once more. */
    method CountFailures()
      requires current < |blocks|
      modifies this`blocks, this`current
      ensures current < |blocks| == |old(blocks)| && Counted(old(blocks), old(current), blocks, current, |blocks| - 1)
      ensures forall i :: 0 <= i < |blocks| ==> blocks[i].(failed := 0) == old(blocks)[i].(failed := 0)
    {
      var p := current;
      while p + 1 < |blocks|
        invariant old(current) <= p < |blocks| == |old(blocks)| && current < |blocks|
        invariant Counted(old(blocks), old(current), blocks, current, p)
        invariant forall i :: 0 <= i < |blocks| ==> blocks[i].(failed := 0) == old(blocks)[i].(failed := 0)
      {
        if blocks[p].failed > 4 { current := p + 1; }
        blocks := blocks[p := blocks[p].(failed := blocks[p].failed + 1)];
        p := p + 1;
      }
    }

    /** A chunk of its own, and a cell for it on the list. */
    method PallocLarge(size: nat) returns (a: Address, inside: bool)
      requires Valid()
      modifies this
      ensures inside <==> Fits(old(blocks), old(current), psize, LARGECELL, true)
      ensures Valid() <==> inside
      ensures inside ==> Handed(a, size) && a.at == 0 && a.chunk == |old(chunks)|
    {
      var more: seq<Byte> := seq(size, _ => 0);
      NewLarge(chunks, more, blocks, live, psize);
      a := Address(|chunks|, 0);
      chunks, live := chunks + [more], live + {Region(|chunks|, 0, size)};
      assert Inside(Region(a.chunk, 0, size), chunks);
      var cell;
      cell, inside := PallocSmall(LARGECELL, true);
    }

    /** An aligned piece of any size. */
    method Palloc(size: nat) returns (a: Address, inside: bool)
      requires Valid()
      modifies this
      ensures inside <==> Fits(old(blocks), old(current), psize, if size <= max then size else LARGECELL, true)
      ensures (Valid() <==> inside) && (Proper(psize) ==> inside)
      ensures inside ==> Handed(a, size) && a.at % 8 == 0
    {
      if Proper(psize) {
        ProperFits(chunks, blocks, current, live, psize, if size <= max then size else LARGECELL, true);
      }
      if size <= max {
        a, inside := PallocSmall(size, true);
      } else {
        a, inside := PallocLarge(size);
      }
    }

    /** A piece of any size, with no gap before it. */
    method Pnalloc(size: nat) returns (a: Address, inside: bool)
      requires Valid()
      modifies this
      ensures inside <==> if size <= max then Fits(old(blocks), old(current), psize, size, false)
                          else Fits(old(blocks), old(current), psize, LARGECELL, true)
      ensures (Valid() <==> inside) && (Proper(psize) ==> inside)
      ensures inside ==> Handed(a, size)
      ensures size <= max && FirstRoom(old(blocks), old(current), psize, size, false) == 0 < |old(blocks)| ==>
        && blocks == old(blocks)[0 := old(blocks)[0].(last := old(blocks)[0].last + size)] && current == old(current)
    {
      if Proper(psize) {
        ProperFits(chunks, blocks, current, live, psize, if size <= max then size else LARGECELL, size > max);
      }
      if size <= max {
        a, inside := PallocSmall(size, false);
      } else {
        a, inside := PallocLarge(size);
      }
    }

    /** A run of requests, up to the first that is not inside its block. */
    method Serve(requests: seq<Request>) returns (inside: bool)
      requires Valid()
      modifies this
      ensures (Valid() <==> inside) && (Proper(psize) ==> inside)
    {
      var i := 0;
      inside := true;
      while i < |requests| && inside
        invariant i <= |requests| && (Valid() <==> inside) && (Proper(psize) ==> inside)
      {
        var a;
        if requests[i].align {
          a, inside := Palloc(requests[i].size);
        } else {
          a, inside := Pnalloc(requests[i].size);
        }
        i := i + 1;
      }
    }

    /** Bytes are copied from one address to another. */
    method Copy(from: Address, to: Address, n: nat)
      requires Valid() && Inside(Region(from.chunk, from.at, n), chunks) && Inside(Region(to.chunk, to.at, n), chunks)
      modifies `chunks
      ensures Valid() && chunks == Written(old(chunks), to, Bytes(Region(from.chunk, from.at, n), old(chunks)))
    {
      var data := chunks[from.chunk][from.at..from.at + n];
      WrittenKeeps(chunks, to, data, blocks, live, psize);
      chunks := Written(chunks, to, data);
    }
  }

  datatype Request = Request(size: nat, align: bool)

  /** Counting failures changes nothing else. */
  lemma FailuresKeep(chunks: seq<seq<Byte>>, b: seq<Block>, b': seq<Block>, live: set<Region>, psize: nat)
    requires Inv(chunks, b, live, psize) && |b'| == |b|
    requires forall i :: 0 <= i < |b| ==> b'[i].(failed := 0) == b[i].(failed := 0)
    ensures Inv(chunks, b', live, psize)
  {
    forall i | 0 <= i < |b| ensures b'[i].chunk == b[i].chunk && b'[i].last == b[i].last {
      assert b'[i].(failed := 0) == b[i].(failed := 0);
    }
    forall i | 0 <= i < |b'| ensures BlockOk(b'[i], chunks, psize) { assert BlockOk(b[i], chunks, psize); }
    forall r, i | r in live && 0 <= i < |b'| ensures Below(r, b'[i]) { assert Below(r, b[i]); }
  }

  /** A pool with blocks of any other size has a run that overruns: in blocks that do not end aligned, an aligned piece
      when the first block is full; in small ones, the cell for a large piece. */
  method Overrun(size: nat) returns (pool: Pool, inside: bool)
    requires HEADER <= size < WORD && !Proper(size)
    ensures pool.psize == size && !inside && !pool.Valid()
  {
    pool := new Pool(size);
    var a;
    if size % 8 == 0 {
      a, inside := pool.Palloc(pool.max + 1);
      return;
    }
    while AlignUp(pool.blocks[0].last) <= size
      invariant fresh(pool) && pool.Valid() && pool.psize == size && |pool.blocks| == 1 && pool.current == 0
      invariant pool.blocks[0].last <= size
      decreases size - pool.blocks[0].last
    {
      var last := pool.blocks[0].last;
      var n := if size - last < pool.max then size - last else pool.max;
      RoomIsRoom(last, size, n);
      a, inside := pool.Pnalloc(n);
      assert BlockOk(pool.blocks[0], pool.chunks, size);
    }
    RoomBehindEnd(AlignUp(pool.blocks[0].last), size, 1);
    a, inside := pool.Palloc(1);
  }

  /** In a pool with blocks of 100 bytes, 28 bytes fill the first one, and the next aligned piece begins behind it. */
  method UnalignedBlockOverruns() returns (pool: Pool, inside: bool)
    ensures pool.psize == 100 && !inside && !pool.Valid()
  {
    pool := new Pool(100);
    var a;
    RoomIsRoom(72, 100, 28);
    a, inside := pool.Pnalloc(28);
    RoomBehindEnd(104, 100, 8);
    assert AlignUp(100) == 104;
    a, inside := pool.Palloc(8);
  }

  /** In a pool with blocks of 80 bytes, a large piece needs a cell, which ends behind a new block. */
  method SmallBlocksOverrun() returns (pool: Pool, inside: bool)
    ensures pool.psize == 80 && !inside && !pool.Valid()
  {
    pool := new Pool(80);
    assert AlignUp(72) == 72;
    RoomIsRoom(72, 80, LARGECELL);
    var a;
    a, inside := pool.PallocLarge(9);
  }
}
