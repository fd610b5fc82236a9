/** The ring as an object: it does the steps of the machine one after another. */
module FifoQueue {
  import opened Arithmetic
  import opened Words
  import opened FifoRing
  import opened FifoSteps

  /** The table of dl_log2: the number of bits of a byte. */
  function BitLength(x: nat): nat
    requires x < 256
  {
    if x == 0 then 0 else if x < 2 then 1 else if x < 4 then 2 else if x < 8 then 3 else if x < 16 then 4
    else if x < 32 then 5 else if x < 64 then 6 else if x < 128 then 7 else 8
  }

  lemma BitLengthBounds(x: nat)
    requires 0 < x < 256
    ensures BitLength(x) >= 1 && Pow2(BitLength(x) - 1) <= x < Pow2(BitLength(x))
  {
    assert Pow2(1) == 2 && Pow2(2) == 4 && Pow2(3) == 8 && Pow2(4) == 16;
    assert Pow2(5) == 32 && Pow2(6) == 64 && Pow2(7) == 128 && Pow2(8) == 256;
  }

  /** The logarithm, rounded down; -1 for zero. */
  method Log2(n: nat) returns (l: int)
    ensures n == 0 ==> l == -1
    ensures n > 0 ==> l >= 0 && Pow2(l) <= n < Pow2(l + 1)
  {
    var x, k := n, 0;
    while x >= 256
      invariant (n > 0 ==> x > 0) && (n == 0 ==> x == 0 && k == 0) && x * Pow2(8 * k) <= n < (x + 1) * Pow2(8 * k)
      decreases x
    {
      Shifted(n, x, k);
      x, k := x / 256, k + 1;
    }
    l := -1 + 8 * k + BitLength(x);
    if n > 0 { Top(n, x, k); }
  }

  /** Dropping a byte from the front keeps the bounds. */
  lemma Shifted(n: nat, x: nat, k: nat)
    requires x * Pow2(8 * k) <= n < (x + 1) * Pow2(8 * k)
    ensures x / 256 * Pow2(8 * (k + 1)) <= n < (x / 256 + 1) * Pow2(8 * (k + 1))
  {
    var p, y := Pow2(8 * k), x / 256;
    Pow2Add(8, 8 * k);
    assert Pow2(8) == 256;
    Assoc(y, 256, p);
    Assoc(y + 1, 256, p);
    TimesGrows(y * 256, x, p);
    TimesGrows(x + 1, (y + 1) * 256, p);
  }

  lemma Top(n: nat, x: nat, k: nat)
    requires 0 < x < 256 && x * Pow2(8 * k) <= n < (x + 1) * Pow2(8 * k)
    ensures var l := -1 + 8 * k + BitLength(x); l >= 0 && Pow2(l) <= n < Pow2(l + 1)
  {
    var b, p := BitLength(x), Pow2(8 * k);
    BitLengthBounds(x);
    Pow2Add(b - 1, 8 * k);
    Pow2Add(b, 8 * k);
    TimesGrows(Pow2(b - 1), x, p);
    TimesGrows(x + 1, Pow2(b), p);
  }

  /** The rounded size is the least power of two that is not smaller. */
  method RoundUp(size: nat) returns (bits: nat)
    requires size >= 1
    ensures Pow2(bits) >= size && (bits > 0 ==> Pow2(bits - 1) < size)
  {
    var l := Log2(size - 1);
    bits := l + 1;
  }

  class Fifo {
    var cin: nat
    var cout: nat
    const esize: nat
    const mask: nat
    const data: array<Byte>
    /** The shape of the ring, the counters as they would be without wrapping, and all bytes sent so far. */
    ghost const g: Shape
    ghost var ins: nat
    ghost var outs: nat
    ghost var sent: seq<Byte>

    /** The ring as a state of the machine. */
    ghost function Now(prod: Producer, cons: Consumer): State
      reads this, data
    {
      State(cin, cout, data[..], prod, cons, ins, outs, sent,
          if outs * esize <= |sent| then sent[..outs * esize] else [])
    }

    ghost predicate Valid()
      reads this, data
    {
      g.esize == esize && g.Valid() && mask + 1 == g.Cap() && Inv(g, Now(Free, Waiting))
    }

    /** The bytes sent and not yet taken. */
    ghost function Contents(): seq<Byte>
      reads this
    {
      if outs * esize <= |sent| then sent[outs * esize..] else []
    }

    constructor Make(bits: nat, size: nat)
      requires Shape(bits, size).Valid()
      ensures Valid() && g == Shape(bits, size) && sent == [] && outs == 0 && fresh(data)
    {
      var shape := Shape(bits, size);
      g, esize, mask := shape, size, Pow2(bits) - 1;
      cin, cout, ins, outs, sent := 0, 0, 0, 0, [];
      data := new Byte[Pow2(bits) * size](_ => 0);
    }

    /** A ring for at least `size` elements; none for a single one. */
    static method Init(size: nat, esize: nat) returns (f: Fifo?)
      requires 1 <= size <= 0x4000_0000 && esize > 0
      requires forall b: nat :: LeastPower(b, size) ==> Pow2(b) * esize < U32
      ensures f == null <==> size == 1
      ensures f != null ==> f.Valid() && LeastPower(f.g.bits, size) && f.esize == esize && f.sent == [] && f.outs == 0
      ensures f != null ==> fresh(f) && fresh(f.data)
    {
      var bits := RoundUp(size);
      assert LeastPower(bits, size);
      AtMost30(bits, size);
      if Pow2(bits) < 2 { return null; }
      Grows(Pow2(bits), esize);
      f := new Fifo.Make(bits, esize);
    }

    /** How many elements fit. */
    method Unused() returns (n: nat)
      requires Valid()
      ensures n == g.Cap() - (ins - outs)
    {
      Difference(g, ins, outs);
      n := Wrap(mask + 1 - Wrap(cin - cout));
    }

    /** Copies elements into the ring behind those sent, the part past the end to the start. */
    method CopyIn(src: seq<Byte>, len: nat, off: nat)
      requires Valid() && |src| == len * esize && ins + len <= outs + g.Cap() && off == cin
      modifies data
      ensures Inv(g, Now(Filling(src, len, |src|), Waiting))
    {
      BeginFilling(g, Now(Free, Waiting), src, len);
      var o, size := Place(off);
      var l := if |src| < size - o then |src| else size - o;
      var k := 0;
      while k < l
        invariant k <= l && Inv(g, Now(Filling(src, len, k), Waiting))
      {
        PutByte(src, len, k, o + k);
        k := k + 1;
      }
      while k < |src|
        invariant l <= k <= |src| && Inv(g, Now(Filling(src, len, k), Waiting))
      {
        PutByte(src, len, k, k - l);
        k := k + 1;
      }
    }

    /** Where a copy begins, and how long the ring is. */
    method Place(off: nat) returns (o: nat, size: nat)
      requires g.Valid() && g.esize == esize && mask + 1 == g.Cap()
      ensures o == Offset(g, off) && size == g.Bytes()
    {
      Grows(g.Cap(), esize);
      o, size := Wrap(off % (mask + 1) * esize), Wrap((mask + 1) * esize);
    }

    /** One byte is copied to its place. */
    method PutByte(src: seq<Byte>, ghost len: nat, k: nat, at: nat)
      requires g.Valid() && Inv(g, Now(Filling(src, len, k), Waiting)) && k < |src| && at == Spot(g, cin, k)
      modifies data
      ensures Inv(g, Now(Filling(src, len, k + 1), Waiting))
    {
      ghost var s := Now(Filling(src, len, k), Waiting);
      CopyInKept(g, s);
      SpotWrites(g, s);
      data[at] := src[k];
      assert Now(Filling(src, len, k + 1), Waiting) == CopyByte(g, s);
    }

    /** Elements go in as far as there is room. */
    method In(buf: seq<Byte>, wanted: nat) returns (len: nat)
      requires Valid() && wanted * esize <= |buf|
      modifies this`cin, this`ins, this`sent, data
      ensures Valid() && len == Min(wanted, g.Cap() - old(ins - outs)) && len * esize <= |buf|
      ensures sent == old(sent) + buf[..len * esize] && Contents() == old(Contents()) + buf[..len * esize]
    {
      var l := Unused();
      len := if wanted > l then l else wanted;
      ScaleLess(len, wanted, esize);
      hide Inv, Wrap;
      Append(buf[..len * esize], len);
    }

    method Append(src: seq<Byte>, len: nat)
      requires Valid() && |src| == len * esize && ins + len <= outs + g.Cap()
      modifies this`cin, this`ins, this`sent, data
      ensures Valid() && sent == old(sent) + src && Contents() == old(Contents()) + src
    {
      CopyIn(src, len, cin);
      Published(g, Now(Filling(src, len, |src|), Waiting));
      PublishedBytes(g, Now(Filling(src, len, |src|), Waiting));
      hide Inv, Wrap;
      cin, ins, sent := Wrap(cin + len), ins + len, sent + src;
    }

    /** Copies elements out of the ring, the part past the end from the start. The offset is a signed number
        here, so from 2^31 on the copy begins before the ring; it is given up at the first such read. */
    method CopyOut(dst: array<Byte>, len: nat, off: nat) returns (inside: bool)
      requires Valid() && dst != data && len * esize <= dst.Length && outs + len <= ins && off == cout
      modifies dst
      ensures Valid() && (inside <==> len == 0 || Offset(g, cout) < 0x8000_0000)
      ensures inside ==> Inv(g, Now(Free, Draining(len, dst[..len * esize])))
    {
      hide Inv, Offset, Signed;
      BeginDraining(g, Now(Free, Waiting), len);
      assert dst[..0] == [];
      CopyLength(g, cout, len);
      var o, size := Place(off);
      var at := Signed(o);
      var total := len * esize;
      var l := if total < Wrap(size - at) then total else Wrap(size - at);
      var k := 0;
      hide Wrap;
      while k < l
        invariant k <= l && Valid() && Inv(g, Now(Free, Draining(len, dst[..k])))
        invariant k > 0 ==> Offset(g, cout) < 0x8000_0000
      {
        inside := GetByte(dst, len, k, at + k);
        if !inside { return; }
        k := k + 1;
      }
      while k < total
        invariant l <= k <= total && Valid() && Inv(g, Now(Free, Draining(len, dst[..k])))
      {
        inside := GetByte(dst, len, k, k - l);
        k := k + 1;
      }
      inside := true;
    }

    /** One byte is copied from where the consumer looks for it, if that is inside the ring. */
    method GetByte(dst: array<Byte>, ghost len: nat, k: nat, at: int) returns (inside: bool)
      requires Valid() && dst != data && k < len * esize <= dst.Length && at == ReadSpot(g, cout, k)
      requires Inv(g, Now(Free, Draining(len, dst[..k])))
      modifies dst
      ensures Valid() && (inside <==> Offset(g, cout) < 0x8000_0000 || g.Bytes() - Offset(g, cout) <= k)
      ensures inside ==> Inv(g, Now(Free, Draining(len, dst[..k + 1])))
      ensures !inside ==> dst[..] == old(dst[..])
    {
      ghost var s := Now(Free, Draining(len, dst[..k]));
      CopyOutKept(g, s);
      inside := 0 <= at < data.Length;
      if inside {
        dst[k] := data[at];
        assert dst[..k + 1] == s.cons.got + [data[at]];
        assert Now(Free, Draining(len, dst[..k + 1])) == TakeByte(g, s);
      }
    }

    /** The next elements, which stay in the ring. */
    method OutPeek(dst: array<Byte>, wanted: nat) returns (len: nat, inside: bool)
      requires Valid() && dst != data && wanted * esize <= dst.Length
      modifies dst
      ensures Valid() && len == Min(wanted, ins - outs) && len * esize <= dst.Length
      ensures inside <==> len == 0 || Offset(g, cout) < 0x8000_0000
      ensures g.Reaches() ==> inside
      ensures inside ==> dst[..len * esize] <= Contents()
      ensures inside ==> Inv(g, Now(Free, Draining(len, dst[..len * esize])))
    {
      Difference(g, ins, outs);
      OffsetsReach(g, cout);
      var l := Wrap(cin - cout);
      len := if wanted > l then l else wanted;
      ScaleLess(len, wanted, esize);
      hide Inv, Wrap, Offset;
      inside := Peek(dst, len);
    }

    method Peek(dst: array<Byte>, len: nat) returns (inside: bool)
      requires Valid() && dst != data && len * esize <= dst.Length && outs + len <= ins
      modifies dst
      ensures Valid() && (inside <==> len == 0 || Offset(g, cout) < 0x8000_0000)
      ensures inside ==> dst[..len * esize] <= Contents()
      ensures inside ==> Inv(g, Now(Free, Draining(len, dst[..len * esize])))
    {
      hide Inv, Wrap, Offset;
      inside := CopyOut(dst, len, cout);
      if inside { GotPrefix(g, Now(Free, Draining(len, dst[..len * esize]))); }
    }

    /** The next elements, which leave the ring. */
    method Out(dst: array<Byte>, wanted: nat) returns (len: nat, inside: bool)
      requires Valid() && dst != data && wanted * esize <= dst.Length
      modifies this`cout, this`outs, dst
      ensures Valid() && len == Min(wanted, old(ins - outs)) && len * esize <= dst.Length
      ensures inside <==> len == 0 || Offset(g, old(cout)) < 0x8000_0000
      ensures g.Reaches() ==> inside
      ensures inside ==> old(Contents()) == dst[..len * esize] + Contents()
      ensures !inside ==> Contents() == old(Contents())
    {
      hide Inv, Min, Offset;
      len, inside := OutPeek(dst, wanted);
      if inside { Advance(len, dst[..len * esize]); }
    }

    method Advance(len: nat, ghost got: seq<Byte>)
      requires Valid() && |got| == len * esize && Inv(g, Now(Free, Draining(len, got)))
      modifies this`cout, this`outs
      ensures Valid() && old(Contents()) == got + Contents()
    {
      Consumed(g, Now(Free, Draining(len, got)));
      hide Inv, Wrap;
      cout, outs := Wrap(cout + len), outs + len;
    }
  }

  /** How a copy splits: the places of its first `l` bytes follow the offset, those of the others the start. */
  lemma CopyLength(g: Shape, c: nat, len: nat)
    requires g.Valid()
    ensures var at := Signed(Offset(g, c));
      && Wrap(g.Bytes() - at) == g.Bytes() - Offset(g, c) > 0 && (len > 0 ==> len * g.esize > 0)
      && (forall k: nat {:trigger ReadSpot(g, c, k)} :: ReadSpot(g, c, k) ==
            if k < g.Bytes() - Offset(g, c) then at + k else k - (g.Bytes() - Offset(g, c)))
  {
    if len > 0 { Grows(len, g.esize); }
  }

  /** What a finished copy got are the next bytes. */
  lemma GotPrefix(g: Shape, s: State)
    requires Inv(g, s) && s.cons.Draining?
    ensures s.outs * g.esize <= |s.sent| && s.cons.got <= s.sent[s.outs * g.esize..]
  {
  }

  /** The state after a finished copy was published. */
  lemma Published(g: Shape, s: State)
    requires Inv(g, s) && s.prod.Filling? && s.prod.k == |s.prod.buf|
    ensures Inv(g, s.(cin := Wrap(s.cin + s.prod.len), ins := s.ins + s.prod.len, sent := s.sent + s.prod.buf,
                      prod := Free))
  {
    PublishKept(g, s);
    hide Inv, Wrap;
  }

  lemma PublishedBytes(g: Shape, s: State)
    requires Inv(g, s) && s.prod.Filling?
    ensures var lo := s.outs * g.esize;
      && lo <= |s.sent| && (s.sent + s.prod.buf)[..lo] == s.taken
      && (s.sent + s.prod.buf)[lo..] == s.sent[lo..] + s.prod.buf
  {
  }

  /** The state after a finished copy was consumed. */
  lemma Consumed(g: Shape, s: State)
    requires Inv(g, s) && s.cons.Draining? && |s.cons.got| == s.cons.len * g.esize
    ensures var lo, hi := s.outs * g.esize, (s.outs + s.cons.len) * g.esize;
      && lo <= hi <= |s.sent| && s.sent[lo..] == s.cons.got + s.sent[hi..]
      && Inv(g, s.(cout := Wrap(s.cout + s.cons.len), outs := s.outs + s.cons.len, taken := s.sent[..hi],
                   cons := Waiting))
  {
    ConsumeKept(g, s);
    ConsumedBytes(g, s);
    hide Inv, Wrap;
  }

  lemma ConsumedBytes(g: Shape, s: State)
    requires Inv(g, s) && s.cons.Draining? && |s.cons.got| == s.cons.len * g.esize
    ensures var lo, hi := s.outs * g.esize, (s.outs + s.cons.len) * g.esize;
      && lo <= hi <= |s.sent| && s.sent[lo..] == s.cons.got + s.sent[hi..] && s.sent[..hi] == s.taken + s.cons.got
  {
    Distribute(s.outs, s.cons.len, g.esize);
  }

  predicate LeastPower(bits: nat, size: nat) {
    Pow2(bits) >= size && (bits > 0 ==> Pow2(bits - 1) < size)
  }

  lemma AtMost30(bits: nat, size: nat)
    requires LeastPower(bits, size) && 1 <= size <= 0x4000_0000
    ensures bits <= 30 && (bits == 0 <==> size == 1) && (Pow2(bits) >= 2 <==> bits >= 1)
  {
    assert Pow2(15) == 32768;
    Pow2Add(15, 15);
    assert Pow2(30) == 0x4000_0000;
    if bits > 30 { Pow2Grows(30, bits - 1); }
    if bits > 0 { Pow2Grows(1, bits); }
  }
}
