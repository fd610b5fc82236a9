/** Growing arrays on a pool: in place, if the array is the last piece of the first block, or else by copying. */
module PoolArray {
  import opened Arithmetic
  import opened Words
  import opened PoolBlocks

  /** The bytes of `n` elements. */
  function Span(size: nat, n: nat): nat {
    size * n
  }

  lemma SpanSum(size: nat, a: nat, b: nat)
    ensures Span(size, a + b) == Span(size, a) + Span(size, b)
  {
    Distribute(a, b, size);
  }

  lemma SpanGrows(size: nat, a: nat, b: nat)
    requires size > 0 && a <= b
    ensures Span(size, a) <= Span(size, b) && (b > 0 ==> Span(size, b) > 0)
  {
    TimesGrows(a, b, size);
    if b > 0 { Grows(size, b); }
  }

  /** An array's region went from `own` to `own1`; of what else was live, nothing shares a byte with it, and all
      bytes are as before. */
  ghost predicate Untouched(live: set<Region>, own: Region, c: seq<seq<Byte>>,
                            live1: set<Region>, own1: Region, c1: seq<seq<Byte>>) {
    && live - {own} <= live1 && New(live - {own}, own1)
    && forall r {:trigger Inside(r, c)} :: r in live - {own} ==>
         Inside(r, c) && Inside(r, c1) && Bytes(r, c1) == Bytes(r, c)
  }

  class Array {
    const pool: Pool
    const size: nat
    var elts: Address
    var nelts: nat
    var nalloc: nat

    /** The array's own region. */
    ghost function Own(): Region
      reads this
    {
      Region(elts.chunk, elts.at, Span(size, nalloc))
    }

    ghost predicate Valid()
      reads this, pool
    {
      && pool.Valid() && size > 0 && 0 < nalloc && nelts <= nalloc
      && Own() in pool.live && Inside(Own(), pool.chunks) && Span(size, nelts) <= Span(size, nalloc)
    }

    /** The bytes of the elements. */
    ghost function Elements(): seq<Byte>
      requires Valid()
      reads this, pool
    {
      Bytes(Own(), pool.chunks)[..Span(size, nelts)]
    }

    constructor (pool: Pool, n: nat, size: nat)
      requires pool.Valid() && n > 0 && size > 0
      modifies pool
      ensures this.pool == pool && this.size == size && nelts == 0 && nalloc == n
      ensures (Valid() <==> pool.Valid()) && (Proper(pool.psize) ==> Valid())
      ensures Valid() ==>
        New(old(pool.live), Own()) && old(pool.live) <= pool.live && old(pool.chunks) <= pool.chunks
    {
      SpanGrows(size, 0, n);
      var a, inside := pool.Palloc(Span(size, n));
      this.pool, this.size, elts, nelts, nalloc := pool, size, a, 0, n;
    }

    /** The array ends where the free part of the pool's first block begins, and that is large enough. */
    predicate AtFront(n: nat)
      reads this, pool
      requires pool.blocks != []
    {
      && elts.chunk == pool.blocks[0].chunk && elts.at + Span(size, nalloc) == pool.blocks[0].last
      && pool.blocks[0].last + Span(size, n) <= pool.psize
    }

    lemma Alone()
      requires Valid()
      ensures Untouched(pool.live, Own(), pool.chunks, pool.live, Own(), pool.chunks)
      ensures forall r {:trigger Inside(r, pool.chunks)} :: r in pool.live ==> Inside(r, pool.chunks)
    {
    }

    /** Room for `n` more elements behind the last one allocated. */
    method GrowInPlace(n: nat)
      requires Valid() && AtFront(n)
      modifies this`nalloc, pool
      ensures Valid() && nalloc == old(nalloc) + n && Elements() == old(Elements()) && elts == old(elts)
      ensures Untouched(old(pool.live), old(Own()), old(pool.chunks), pool.live, Own(), pool.chunks)
    {
      ghost var own, c, live := Own(), pool.chunks, pool.live;
      SpanSum(size, nalloc, n);
      SpanGrows(size, nelts, nalloc);
      Alone();
      hide Inv, Span;
      var more := Span(size, n);
      GrowLast(c, pool.blocks, live, pool.psize, 0, own, more);
      pool.blocks := pool.blocks[0 := pool.blocks[0].(last := pool.blocks[0].last + more)];
      pool.live := live - {own} + {own.(len := own.len + more)};
      nalloc := nalloc + n;
      assert Own() == own.(len := own.len + more);
      GrownIsUntouched(c, live, own, more);
      Prefix(own, Own(), c, Span(size, nelts));
    }

    /** A new region for `n` elements, with the elements copied there, unless the pool overruns. */
    method MoveTo(n: nat) returns (inside: bool)
      requires Valid() && n >= nelts && n > 0
      modifies this, pool
      ensures Proper(pool.psize) ==> inside
      ensures inside ==> Valid() && nelts == old(nelts) && nalloc == n && Elements() == old(Elements())
      ensures inside ==> Untouched(old(pool.live), old(Own()), old(pool.chunks), pool.live, Own(), pool.chunks)
    {
      ghost var own, c, live := Own(), pool.chunks, pool.live;
      Alone();
      SpanGrows(size, nelts, nalloc);
      SpanGrows(size, nelts, n);
      hide Inv, Span;
      var a;
      a, inside := pool.Palloc(Span(size, n));
      if !inside { return; }
      var bytes := Span(size, nelts);
      ghost var c1, moved, data := pool.chunks, Region(a.chunk, a.at, Span(size, n)), Region(own.chunk, own.at, bytes);
      Prefix(own, data, c, bytes);
      SameBytes(data, c, c1);
      pool.Copy(elts, a, bytes);
      OthersUntouched(c, c1, live, own, pool.live, moved, Bytes(data, c1));
      WrittenBytes(c1, a, Bytes(data, c1));
      elts, nalloc := a, n;
      Prefix(moved, Region(a.chunk, a.at, bytes), pool.chunks, bytes);
    }

    /** How the array has grown: not at all, if there was room; in place by what was asked for, if it was possible; or
        to a new size, elsewhere. */
    predicate Grown(room: bool, front: bool, nalloc0: nat, n: nat, moved: nat)
      reads this
    {
      nalloc == if room then nalloc0 else if front then nalloc0 + n else moved
    }

    /** Room for `n` more elements: as much again as before, and at least twice what is asked for, if they move. */
    method Reserve(n: nat, twice: nat) returns (inside: bool)
      requires Valid() && nelts + n <= 2 * twice && twice > 0
      modifies this, pool
      ensures Proper(pool.psize) ==> inside
      ensures inside ==> Valid() && nelts == old(nelts) && nelts + n <= nalloc && Elements() == old(Elements())
      ensures inside ==> Grown(old(nelts) + n <= old(nalloc), old(AtFront(n)), old(nalloc), n, 2 * twice)
      ensures inside ==> Untouched(old(pool.live), old(Own()), old(pool.chunks), pool.live, Own(), pool.chunks)
    {
      Alone();
      hide Untouched, Inv, Span;
      inside := true;
      if nelts + n > nalloc {
        if AtFront(n) {
          GrowInPlace(n);
        } else {
          inside := MoveTo(2 * twice);
        }
      }
    }

    /** The next elements are in use. */
    method TakeElements(n: nat) returns (elt: Address)
      requires Valid() && nelts + n <= nalloc
      modifies `nelts
      ensures Valid() && nelts == old(nelts) + n && Own() == old(Own()) && nalloc == old(nalloc)
      ensures elt == Address(elts.chunk, elts.at + Span(size, old(nelts)))
      ensures Span(size, nelts) == Span(size, old(nelts)) + Span(size, n)
      ensures Elements()[..Span(size, old(nelts))] == old(Elements())
    {
      SpanSum(size, nelts, n);
      SpanGrows(size, nelts + n, nalloc);
      hide Inv, Span;
      elt := Address(elts.chunk, elts.at + Span(size, nelts));
      nelts := nelts + n;
    }

    /** Room for another element; its address. */
    method Push() returns (elt: Address, inside: bool)
      requires Valid()
      modifies this, pool
      ensures Proper(pool.psize) ==> inside
      ensures inside ==> Valid() && nelts == old(nelts) + 1
      ensures inside ==> Grown(old(nelts) < old(nalloc), old(AtFront(1)), old(nalloc), 1, 2 * old(nalloc))
      ensures inside ==> elt == Address(elts.chunk, elts.at + Span(size, old(nelts)))
      ensures inside ==> Span(size, old(nelts)) + Span(size, 1) == Span(size, nelts) <= Span(size, nalloc)
      ensures inside ==> Elements()[..Span(size, old(nelts))] == old(Elements())
      ensures inside ==> Untouched(old(pool.live), old(Own()), old(pool.chunks), pool.live, Own(), pool.chunks)
    {
      hide Untouched, Inv, Span;
      elt := elts;
      inside := Reserve(1, nalloc);
      if inside { elt := TakeElements(1); }
    }

    /** Room for `n` more elements; their address. */
    method PushN(n: nat) returns (elt: Address, inside: bool)
      requires Valid()
      modifies this, pool
      ensures Proper(pool.psize) ==> inside
      ensures inside ==> Valid() && nelts == old(nelts) + n
      ensures inside ==> Grown(old(nelts) + n <= old(nalloc), old(AtFront(n)), old(nalloc), n,
          2 * if n > old(nalloc) then n else old(nalloc))
      ensures inside ==> elt == Address(elts.chunk, elts.at + Span(size, old(nelts)))
      ensures inside ==> Span(size, old(nelts)) + Span(size, n) == Span(size, nelts) <= Span(size, nalloc)
      ensures inside ==> Elements()[..Span(size, old(nelts))] == old(Elements())
      ensures inside ==> Untouched(old(pool.live), old(Own()), old(pool.chunks), pool.live, Own(), pool.chunks)
    {
      hide Untouched, Inv, Span;
      elt := elts;
      inside := Reserve(n, if n >= nalloc then n else nalloc);
      if inside { elt := TakeElements(n); }
    }
  }

  lemma GrownIsUntouched(c: seq<seq<Byte>>, live: set<Region>, own: Region, more: nat)
    requires forall r {:trigger Inside(r, c)} :: r in live ==> Inside(r, c)
    requires New(live - {own}, own.(len := own.len + more))
    ensures var own1 := own.(len := own.len + more); Untouched(live, own, c, live - {own} + {own1}, own1, c)
  {
  }

  /** Regions that begin at the same address have the same first bytes. */
  lemma Prefix(a: Region, b: Region, c: seq<seq<Byte>>, n: nat)
    requires Inside(a, c) && Inside(b, c) && a.chunk == b.chunk && a.at == b.at && n <= a.len && n <= b.len
    ensures Bytes(a, c)[..n] == Bytes(b, c)[..n] && (n == b.len ==> Bytes(a, c)[..n] == Bytes(b, c))
  {
  }

  lemma SameBytes(r: Region, c: seq<seq<Byte>>, c1: seq<seq<Byte>>)
    requires Inside(r, c) && c <= c1
    ensures Inside(r, c1) && Bytes(r, c1) == Bytes(r, c)
  {
  }

  /** What was live before a region was handed out does not notice what is written into it. */
  lemma OthersUntouched(c: seq<seq<Byte>>, c1: seq<seq<Byte>>, live: set<Region>, own: Region, live1: set<Region>,
                        moved: Region, data: seq<Byte>)
    requires c <= c1 && (forall r {:trigger Inside(r, c)} :: r in live ==> Inside(r, c)) && New(live, moved)
    requires Inside(moved, c1) && |data| <= moved.len && live <= live1
    ensures Untouched(live, own, c, live1, moved, Written(c1, Address(moved.chunk, moved.at), data))
  {
    var to := Address(moved.chunk, moved.at);
    var c2 := Written(c1, to, data);
    forall r | r in live ensures Inside(r, c) && Inside(r, c2) && Bytes(r, c2) == Bytes(r, c) {
      assert Apart(r, moved) && Inside(r, c);
      SameBytes(r, c, c1);
      WrittenElsewhere(c1, to, data, r);
    }
  }
}
