/** One producer and one consumer on the ring, in every interleaving of their single steps. */
module FifoSteps {
  import opened Arithmetic
  import opened Words
  import opened FifoRing

  /** The ring has `Pow2(bits)` elements of `esize` bytes; its length in bytes fits into 32 bits. */
  datatype Shape = Shape(bits: nat, esize: nat) {
    function Cap(): nat {
      Pow2(bits)
    }

    function Bytes(): nat {
      Cap() * esize
    }

    predicate Valid() {
      1 <= bits <= 30 && esize > 0 && 0 < Bytes() < U32
    }

    /** Every element begins at an offset that a signed 32-bit number holds. */
    predicate Reaches() {
      (Cap() - 1) * esize < 0x8000_0000
    }
  }

  /** A producer that copies has fixed how many elements fit, and has copied `k` bytes of them. */
  datatype Producer = Free | Filling(buf: seq<Byte>, len: nat, k: nat)

  /** A consumer that copies has fixed how many elements are there, and has copied some bytes of them. One that
      has read outside the ring has strayed; nothing is known of what it does after that. */
  datatype Consumer = Waiting | Draining(len: nat, got: seq<Byte>) | Strayed

  /** The counters `cin` and `cout` are 32 bits wide; `ins` and `outs` are what they would be without wrapping.
      `sent` and `taken` are all bytes published and all bytes taken so far. */
  datatype State = State(cin: nat, cout: nat, data: seq<Byte>, prod: Producer, cons: Consumer,
                         ins: nat, outs: nat, sent: seq<Byte>, taken: seq<Byte>)

  /** dl_fifo_in reads the other side's counter and fixes the length; copies a byte; moves its own counter.
      dl_fifo_out does the same on its side; dl_fifo_out_peek leaves its counter alone. */
  datatype Event =
    | StartIn(buf: seq<Byte>, len: nat) | CopyIn | Publish
    | StartOut(wanted: nat) | CopyOut | Consume | EndPeek

  function Wrap(x: int): nat {
    x % U32
  }

  /** The byte at which a copy begins. */
  function Offset(g: Shape, c: nat): (off: nat)
    requires g.Valid()
    ensures off < g.Bytes()
  {
    Scaled(c, g.Cap(), g.esize);
    c % g.Cap() * g.esize
  }

  /** The place of byte `k` of a copy that begins at counter `c`: past the end it goes on at the start. */
  function Spot(g: Shape, c: nat, k: nat): nat
    requires g.Valid()
  {
    var off := Offset(g, c);
    var l := g.Bytes() - off;
    if k < l then off + k else k - l
  }

  /** A 32-bit word, read as a signed number. */
  function Signed(w: nat): int
    requires w < U32
  {
    if w < 0x8000_0000 then w else w - U32
  }

  /** Where the consumer reads byte `k` of its copy: unlike the producer, it keeps the offset as a signed
      number, and only the room behind the offset is computed without sign. */
  function ReadSpot(g: Shape, c: nat, k: nat): int
    requires g.Valid()
  {
    var off := Signed(Offset(g, c));
    var l := Wrap(g.Bytes() - off);
    if k < l then off + k else k - l
  }

  function Min(a: nat, b: nat): nat {
    if a < b then a else b
  }

  predicate Fits(g: Shape, s: State) {
    g.Valid() && |s.data| == g.Bytes()
  }

  /** An event happens if its side is ready for it; otherwise nothing changes. */
  function Step(g: Shape, s: State, e: Event): State
    requires Fits(g, s)
  {
    match e
    case StartIn(buf, len) =>
      var unused := Wrap(g.Cap() - Wrap(s.cin - s.cout));
      var n := Min(len, unused);
      if s.prod.Free? && n * g.esize <= |buf| then s.(prod := Filling(buf[..n * g.esize], n, 0)) else s
    case CopyIn =>
      if s.prod.Filling? && s.prod.k < |s.prod.buf| then CopyByte(g, s) else s
    case Publish =>
      if s.prod.Filling? && s.prod.k == |s.prod.buf| then
        s.(cin := Wrap(s.cin + s.prod.len), ins := s.ins + s.prod.len, sent := s.sent + s.prod.buf, prod := Free)
      else s
    case StartOut(wanted) =>
      if s.cons.Waiting? then s.(cons := Draining(Min(wanted, Wrap(s.cin - s.cout)), [])) else s
    case CopyOut =>
      if s.cons.Draining? && |s.cons.got| < s.cons.len * g.esize then TakeByte(g, s) else s
    case Consume =>
      if s.cons.Draining? && |s.cons.got| == s.cons.len * g.esize then
        s.(cout := Wrap(s.cout + s.cons.len), outs := s.outs + s.cons.len, taken := s.taken + s.cons.got,
            cons := Waiting)
      else s
    case EndPeek => if s.cons.Draining? then s.(cons := Waiting) else s
  }

  function CopyByte(g: Shape, s: State): State
    requires Fits(g, s) && s.prod.Filling? && s.prod.k < |s.prod.buf|
  {
    var at := Spot(g, s.cin, s.prod.k);
    if at < |s.data| then s.(data := s.data[at := s.prod.buf[s.prod.k]], prod := s.prod.(k := s.prod.k + 1)) else s
  }

  function TakeByte(g: Shape, s: State): State
    requires Fits(g, s) && s.cons.Draining?
  {
    var at := ReadSpot(g, s.cout, |s.cons.got|);
    s.(cons := if 0 <= at < |s.data| then s.cons.(got := s.cons.got + [s.data[at]]) else Strayed)
  }

  /** A new ring. */
  ghost predicate Initial(g: Shape, s: State) {
    Fits(g, s) && s == State(0, 0, s.data, Free, Waiting, 0, 0, [], [])
  }

  // The invariant

  /** The counters are the true counts, wrapped; at most a ring full of elements is unread. */
  predicate Counted(g: Shape, s: State) {
    && s.cin == Wrap(s.ins) && s.cout == Wrap(s.outs) && s.outs <= s.ins <= s.outs + g.Cap()
    && |s.sent| == s.ins * g.esize && s.outs * g.esize <= |s.sent| && s.taken == s.sent[..s.outs * g.esize]
  }

  /** Bytes `from` to `to` of what was sent are in the ring, each at its place. */
  predicate Stored(g: Shape, data: seq<Byte>, sent: seq<Byte>, from: nat)
    requires g.Valid() && |data| == g.Bytes()
  {
    forall i :: from <= i < |sent| ==> data[i % g.Bytes()] == sent[i]
  }

  /** What the producer has copied so far is in the ring behind what was sent. */
  predicate Filled(g: Shape, s: State)
    requires Fits(g, s)
  {
    s.prod.Filling? ==>
      && |s.prod.buf| == s.prod.len * g.esize && s.prod.k <= |s.prod.buf| && s.ins + s.prod.len <= s.outs + g.Cap()
      && Stored(g, s.data, s.sent + s.prod.buf[..s.prod.k], s.outs * g.esize)
  }

  /** What the consumer has copied so far is what was sent next. */
  predicate Drained(g: Shape, s: State) {
    s.cons.Draining? ==>
      && s.outs + s.cons.len <= s.ins && |s.cons.got| <= s.cons.len * g.esize
      && s.outs * g.esize + |s.cons.got| <= |s.sent|
      && s.cons.got == s.sent[s.outs * g.esize..s.outs * g.esize + |s.cons.got|]
  }

  predicate Inv(g: Shape, s: State) {
    Fits(g, s) && Counted(g, s) && Stored(g, s.data, s.sent, s.outs * g.esize) && Filled(g, s) && Drained(g, s)
  }

  // Arithmetic of the counters

  /** The wrapped difference of the counters is the true one. */
  lemma Difference(g: Shape, ins: nat, outs: nat)
    requires g.Valid() && outs <= ins <= outs + g.Cap()
    ensures Wrap(Wrap(ins) - Wrap(outs)) == ins - outs && Wrap(g.Cap() - (ins - outs)) == g.Cap() - (ins - outs)
  {
    Grows(g.Cap(), g.esize);
    WrapDifference(ins, outs);
    WrapSmall(g.Cap() - (ins - outs));
  }

  lemma WrapDifference(a: nat, b: nat)
    requires b <= a < b + U32
    ensures Wrap(Wrap(a) - Wrap(b)) == a - b
  {
    assert a == a / U32 * U32 + a % U32 && b == b / U32 * U32 + b % U32;
  }

  lemma WrapSmall(x: nat)
    requires x < U32
    ensures Wrap(x) == x
  {
  }

  /** The copy's places are those of positions counted on forever. */
  lemma SpotIs(g: Shape, x: nat, k: nat)
    requires g.Valid() && k < g.Bytes()
    ensures Spot(g, Wrap(x), k) == (x * g.esize + k) % g.Bytes()
  {
    LowOfWrapped(x, g.bits);
    Scaled(x, g.Cap(), g.esize);
    Onwards(x * g.esize, k, g.Bytes());
    Wrapped(x % g.Cap() * g.esize + k, g.Bytes());
  }

  /** The consumer reads the byte at its place exactly if the offset is below 2^31, or the copy has already
      wrapped around; any other read is before the start of the ring. */
  lemma ReadSpotIs(g: Shape, c: nat, k: nat)
    requires g.Valid() && k < g.Bytes()
    ensures 0 <= Spot(g, c, k) < g.Bytes()
    ensures ReadSpot(g, c, k) == Spot(g, c, k) || ReadSpot(g, c, k) < 0
    ensures 0 <= ReadSpot(g, c, k) <==> Offset(g, c) < 0x8000_0000 || g.Bytes() - Offset(g, c) <= k
  {
    var off := Offset(g, c);
    assert Wrap(g.Bytes() - Signed(off)) == g.Bytes() - off;
  }

  /** In a ring that reaches, every offset is below 2^31; in any other, that of the last element is not. */
  lemma OffsetsReach(g: Shape, c: nat)
    requires g.Valid()
    ensures g.Reaches() ==> Offset(g, c) < 0x8000_0000
    ensures c == g.Cap() - 1 ==> (Offset(g, c) < 0x8000_0000 <==> g.Reaches())
  {
    var x, top, e := c % g.Cap(), g.Cap() - 1, g.esize;
    TimesGrows(x, top, e);
    if c == top { ModUnique(c, g.Cap(), 0, c); }
    assert Offset(g, c) == x * e;
  }

  // Every step keeps the invariant

  /** Writing the byte behind all that is stored overwrites none of it. */
  lemma StoreOne(g: Shape, data: seq<Byte>, sent: seq<Byte>, from: nat, b: Byte)
    requires g.Valid() && |data| == g.Bytes() && Stored(g, data, sent, from) && from <= |sent| < from + g.Bytes()
    ensures Stored(g, data[|sent| % g.Bytes() := b], sent + [b], from)
  {
    var data1, sent1 := data[|sent| % g.Bytes() := b], sent + [b];
    forall i | from <= i < |sent1| ensures data1[i % g.Bytes()] == sent1[i] {
      if i < |sent| {
        Places(i, |sent|, g.Bytes());
        assert data[i % g.Bytes()] == sent[i];
      }
    }
  }

  lemma ScaleLess(a: nat, b: nat, esize: nat)
    requires a <= b
    ensures a * esize <= b * esize && (b - a) * esize == b * esize - a * esize
    ensures (a + b) * esize == a * esize + b * esize
  {
    Distribute(b, a, esize);
    TimesGrows(a, b, esize);
  }

  /** The producer writes at a position behind all that was sent, within a ring of the first unread one. */
  lemma FillingAt(g: Shape, s: State)
    requires Inv(g, s) && s.prod.Filling? && s.prod.k < |s.prod.buf|
    ensures s.outs * g.esize <= s.ins * g.esize + s.prod.k < s.outs * g.esize + g.Bytes()
    ensures Spot(g, s.cin, s.prod.k) == (s.ins * g.esize + s.prod.k) % g.Bytes()
  {
    ScaleLess(s.ins + s.prod.len, s.outs + g.Cap(), g.esize);
    ScaleLess(s.outs, s.ins, g.esize);
    Distribute(s.ins, s.prod.len, g.esize);
    Distribute(s.outs, g.Cap(), g.esize);
    SpotIs(g, s.ins, s.prod.k);
  }

  /** The next byte of the producer goes to a place that holds nothing unread. */
  lemma CopyInKept(g: Shape, s: State)
    requires Inv(g, s) && s.prod.Filling? && s.prod.k < |s.prod.buf|
    ensures var t := CopyByte(g, s); Inv(g, t) && t.prod == s.prod.(k := s.prod.k + 1)
  {
    var p, lo := s.prod, s.outs * g.esize;
    var old1 := s.sent + p.buf[..p.k];
    FillingAt(g, s);
    hide Spot;
    StoreOne(g, s.data, old1, lo, p.buf[p.k]);
    assert s.sent + p.buf[..p.k + 1] == old1 + [p.buf[p.k]];
    StoredPrefix(g, CopyByte(g, s).data, s.sent, p.buf[..p.k + 1], lo);
  }

  /** What is stored with more behind it is stored. */
  lemma StoredPrefix(g: Shape, data: seq<Byte>, sent: seq<Byte>, more: seq<Byte>, from: nat)
    requires g.Valid() && |data| == g.Bytes() && Stored(g, data, sent + more, from)
    ensures Stored(g, data, sent, from)
  {
    forall i | from <= i < |sent| ensures data[i % g.Bytes()] == sent[i] {
      assert (sent + more)[i] == sent[i];
    }
  }

  /** The consumer looks for a position that was sent and not taken, or before the ring. */
  lemma DrainingAt(g: Shape, s: State)
    requires Inv(g, s) && s.cons.Draining? && |s.cons.got| < s.cons.len * g.esize
    ensures s.outs * g.esize + |s.cons.got| < s.ins * g.esize
    ensures var at := ReadSpot(g, s.cout, |s.cons.got|);
      && (at < 0 || at == (s.outs * g.esize + |s.cons.got|) % g.Bytes() < g.Bytes())
      && (0 <= at <==> Offset(g, s.cout) < 0x8000_0000 || g.Bytes() - Offset(g, s.cout) <= |s.cons.got|)
    ensures |s.cons.got| < g.Bytes()
  {
    ScaleLess(s.outs + s.cons.len, s.ins, g.esize);
    ScaleLess(s.cons.len, g.Cap(), g.esize);
    Distribute(s.outs, s.cons.len, g.esize);
    SpotIs(g, s.outs, |s.cons.got|);
    ReadSpotIs(g, s.cout, |s.cons.got|);
  }

  /** The consumer reads bytes that have been sent and not been taken, or none of the ring. */
  lemma CopyOutKept(g: Shape, s: State)
    requires Inv(g, s) && s.cons.Draining? && |s.cons.got| < s.cons.len * g.esize
    ensures var t := TakeByte(g, s); Inv(g, t) && (t.cons.Draining? ==> |t.cons.got| == |s.cons.got| + 1)
    ensures |s.cons.got| < g.Bytes()
    ensures TakeByte(g, s).cons.Draining? <==>
      Offset(g, s.cout) < 0x8000_0000 || g.Bytes() - Offset(g, s.cout) <= |s.cons.got|
  {
    var lo := s.outs * g.esize;
    var at := lo + |s.cons.got|;
    DrainingAt(g, s);
    hide Offset, ReadSpot, Spot;
    if TakeByte(g, s).cons.Draining? {
      assert s.data[at % g.Bytes()] == s.sent[at];
      assert s.sent[lo..at + 1] == s.cons.got + [s.sent[at]];
    }
  }

  /** A copy may begin when there is room for it. */
  lemma BeginFilling(g: Shape, s: State, buf: seq<Byte>, len: nat)
    requires Inv(g, s) && s.prod.Free? && |buf| == len * g.esize && s.ins + len <= s.outs + g.Cap()
    ensures Inv(g, s.(prod := Filling(buf, len, 0)))
  {
    assert s.sent + buf[..0] == s.sent;
  }

  lemma StartInKept(g: Shape, s: State, buf: seq<Byte>, len: nat)
    requires Inv(g, s)
    ensures Inv(g, Step(g, s, StartIn(buf, len)))
  {
    Difference(g, s.ins, s.outs);
    var n := Min(len, Wrap(g.Cap() - Wrap(s.cin - s.cout)));
    assert s.ins + n <= s.outs + g.Cap();
    hide Inv, Wrap;
    if s.prod.Free? && n * g.esize <= |buf| { BeginFilling(g, s, buf[..n * g.esize], n); }
  }

  lemma BeginDraining(g: Shape, s: State, len: nat)
    requires Inv(g, s) && s.cons.Waiting? && s.outs + len <= s.ins
    ensures Inv(g, s.(cons := Draining(len, [])))
  {
    assert s.sent[s.outs * g.esize..s.outs * g.esize] == [];
  }

  lemma StartOutKept(g: Shape, s: State, wanted: nat)
    requires Inv(g, s)
    ensures Inv(g, Step(g, s, StartOut(wanted)))
  {
    Difference(g, s.ins, s.outs);
    var n := Min(wanted, Wrap(s.cin - s.cout));
    assert s.outs + n <= s.ins;
    hide Inv, Wrap;
    if s.cons.Waiting? { BeginDraining(g, s, n); }
  }

  lemma PublishKept(g: Shape, s: State)
    requires Inv(g, s) && s.prod.Filling? && s.prod.k == |s.prod.buf|
    ensures Inv(g, Step(g, s, Publish))
  {
    var t, e := Step(g, s, Publish), g.esize;
    assert s.prod.buf[..s.prod.k] == s.prod.buf;
    ScaleLess(s.ins, s.ins + s.prod.len, e);
    Distribute(s.ins, s.prod.len, e);
    Onwards(s.ins, s.prod.len, U32);
    PrefixStays(s.sent, s.prod.buf, 0, s.outs * e);
    if s.cons.Draining? { PrefixStays(s.sent, s.prod.buf, s.outs * e, s.outs * e + |s.cons.got|); }
  }

  lemma PrefixStays(a: seq<Byte>, b: seq<Byte>, lo: nat, hi: nat)
    requires lo <= hi <= |a|
    ensures (a + b)[lo..hi] == a[lo..hi]
  {
  }

  lemma ConsumeKept(g: Shape, s: State)
    requires Inv(g, s) && s.cons.Draining? && |s.cons.got| == s.cons.len * g.esize
    ensures Inv(g, Step(g, s, Consume))
  {
    var e := g.esize;
    ScaleLess(s.outs + s.cons.len, s.ins, e);
    Distribute(s.outs, s.cons.len, e);
    Onwards(s.outs, s.cons.len, U32);
    var lo, hi := s.outs * e, (s.outs + s.cons.len) * e;
    assert s.sent[..lo] + s.sent[lo..hi] == s.sent[..hi];
  }

  /** Every event keeps the invariant. */
  lemma StepKept(g: Shape, s: State, e: Event)
    requires Inv(g, s)
    ensures Inv(g, Step(g, s, e))
  {
    match e
    case StartIn(buf, len) => StartInKept(g, s, buf, len);
    case CopyIn => if s.prod.Filling? && s.prod.k < |s.prod.buf| { CopyInKept(g, s); }
    case Publish => if s.prod.Filling? && s.prod.k == |s.prod.buf| { PublishKept(g, s); }
    case StartOut(wanted) => StartOutKept(g, s, wanted);
    case CopyOut => if s.cons.Draining? && |s.cons.got| < s.cons.len * g.esize { CopyOutKept(g, s); }
    case Consume => if s.cons.Draining? && |s.cons.got| == s.cons.len * g.esize { ConsumeKept(g, s); }
    case EndPeek =>
  }

  // Whole runs

  function Run(g: Shape, s: State, es: seq<Event>): (t: State)
    requires Fits(g, s)
    ensures Fits(g, t)
    decreases |es|
  {
    if es == [] then s else Run(g, Step(g, s, es[0]), es[1..])
  }

  lemma {:induction false} RunKept(g: Shape, s: State, es: seq<Event>)
    requires Inv(g, s)
    ensures Inv(g, Run(g, s, es))
    decreases |es|
  {
    if es != [] {
      StepKept(g, s, es[0]);
      RunKept(g, Step(g, s, es[0]), es[1..]);
    }
  }

  /** In every interleaving, what was taken is what was sent first, and the ring never holds more than fits. */
  lemma Safe(g: Shape, s: State, es: seq<Event>)
    requires Initial(g, s)
    ensures var t := Run(g, s, es);
      && t.taken <= t.sent && Wrap(t.cin - t.cout) <= g.Cap()
      && Wrap(t.cin - t.cout) * g.esize == |t.sent| - |t.taken|
      && (forall i :: |t.taken| <= i < |t.sent| ==> t.data[i % g.Bytes()] == t.sent[i])
  {
    InitialInv(g, s);
    RunKept(g, s, es);
    var t := Run(g, s, es);
    Difference(g, t.ins, t.outs);
    ScaleLess(t.outs, t.ins, g.esize);
  }

  lemma InitialInv(g: Shape, s: State)
    requires Initial(g, s)
    ensures Inv(g, s)
  {
    assert Stored(g, s.data, s.sent, 0);
  }

  /** In every interleaving, while both sides copy, they never touch the same place. */
  lemma NoRace(g: Shape, s: State, es: seq<Event>)
    requires Initial(g, s)
    ensures var t := Run(g, s, es);
      t.prod.Filling? && t.prod.k < |t.prod.buf| && t.cons.Draining? && |t.cons.got| < t.cons.len * g.esize ==>
      Spot(g, t.cin, t.prod.k) != ReadSpot(g, t.cout, |t.cons.got|)
  {
    InitialInv(g, s);
    RunKept(g, s, es);
    var t := Run(g, s, es);
    if t.prod.Filling? && t.prod.k < |t.prod.buf| && t.cons.Draining? && |t.cons.got| < t.cons.len * g.esize {
      CopiesApart(g, t);
    }
  }

  lemma CopiesApart(g: Shape, s: State)
    requires Inv(g, s) && s.prod.Filling? && s.prod.k < |s.prod.buf|
    requires s.cons.Draining? && |s.cons.got| < s.cons.len * g.esize
    ensures Spot(g, s.cin, s.prod.k) != ReadSpot(g, s.cout, |s.cons.got|)
  {
    FillingAt(g, s);
    DrainingAt(g, s);
    hide Inv, Spot, ReadSpot;
    OtherPlace(s.outs * g.esize + |s.cons.got|, s.ins * g.esize + s.prod.k, g.Bytes(), Spot(g, s.cin, s.prod.k),
               ReadSpot(g, s.cout, |s.cons.got|));
  }

  lemma OtherPlace(i: nat, j: nat, n: nat, written: int, read: int)
    requires i < j < i + n && written == j % n && (read < 0 || read == i % n)
    ensures written != read
  {
    Places(i, j, n);
  }

  // Where the consumer reads

  lemma {:induction false} NeverStrays(g: Shape, s: State, es: seq<Event>)
    requires Inv(g, s) && !s.cons.Strayed? && g.Reaches()
    ensures !Run(g, s, es).cons.Strayed?
    decreases |es|
  {
    if es != [] {
      StepKept(g, s, es[0]);
      OffsetsReach(g, s.cout);
      if s.cons.Draining? && |s.cons.got| < s.cons.len * g.esize { CopyOutKept(g, s); }
      NeverStrays(g, Step(g, s, es[0]), es[1..]);
    }
  }

  lemma {:induction false} RunOn(g: Shape, s: State, es: seq<Event>, fs: seq<Event>)
    requires Fits(g, s)
    ensures Run(g, s, es + fs) == Run(g, Run(g, s, es), fs)
    decreases |es|
  {
    if es == [] {
      assert es + fs == fs;
    } else {
      RunOn(g, Step(g, s, es[0]), es[1..], fs);
      assert (es + fs)[1..] == es[1..] + fs;
    }
  }

  /** Nothing is being copied, and `x` elements have gone through. */
  ghost predicate Idle(g: Shape, s: State, ins: nat, outs: nat) {
    Inv(g, s) && s.prod.Free? && s.cons.Waiting? && s.ins == ins && s.outs == outs
  }

  /** The producer can copy the rest. */
  lemma {:induction false} Fills(g: Shape, s: State) returns (es: seq<Event>)
    requires Inv(g, s) && s.prod.Filling?
    ensures var t := Run(g, s, es);
      Inv(g, t) && t.prod == s.prod.(k := |s.prod.buf|) && t.(data := s.data, prod := s.prod) == s
    decreases |s.prod.buf| - s.prod.k
  {
    es := [];
    if s.prod.k < |s.prod.buf| {
      CopyInKept(g, s);
      SpotWrites(g, s);
      var rest := Fills(g, CopyByte(g, s));
      es := [CopyIn] + rest;
      assert es[1..] == rest;
    }
  }

  lemma SpotWrites(g: Shape, s: State)
    requires Inv(g, s) && s.prod.Filling? && s.prod.k < |s.prod.buf|
    ensures Spot(g, s.cin, s.prod.k) < |s.data|
  {
    FillingAt(g, s);
  }

  /** Elements can be sent as far as there is room. */
  lemma Sends(g: Shape, s: State, n: nat) returns (es: seq<Event>)
    requires Idle(g, s, s.ins, s.outs) && s.ins + n <= s.outs + g.Cap()
    ensures Idle(g, Run(g, s, es), s.ins + n, s.outs)
  {
    var buf: seq<Byte> := seq(n * g.esize, _ => 0);
    var s1 := Step(g, s, StartIn(buf, n));
    Difference(g, s.ins, s.outs);
    StartInKept(g, s, buf, n);
    var fill := Fills(g, s1);
    var s2 := Run(g, s1, fill);
    PublishKept(g, s2);
    RunOn(g, s1, fill, [Publish]);
    assert Run(g, s2, [Publish]) == Step(g, s2, Publish);
    es := [StartIn(buf, n)] + (fill + [Publish]);
    assert es[1..] == fill + [Publish];
  }

  /** The consumer can copy the rest, if its offset is below 2^31. */
  lemma {:induction false} Drains(g: Shape, s: State) returns (es: seq<Event>)
    requires Inv(g, s) && s.cons.Draining? && Offset(g, s.cout) < 0x8000_0000
    ensures var t := Run(g, s, es);
      && Inv(g, t) && t.cons.Draining? && t.cons.len == s.cons.len && |t.cons.got| == s.cons.len * g.esize
      && t.(cons := s.cons) == s
    decreases s.cons.len * g.esize - |s.cons.got|
  {
    es := [];
    if |s.cons.got| < s.cons.len * g.esize {
      CopyOutKept(g, s);
      var rest := Drains(g, TakeByte(g, s));
      es := [CopyOut] + rest;
      assert es[1..] == rest;
    }
  }

  /** Everything sent can be taken, if the copy begins below 2^31. */
  lemma Takes(g: Shape, s: State) returns (es: seq<Event>)
    requires Idle(g, s, s.ins, s.outs) && Offset(g, s.cout) < 0x8000_0000
    ensures Idle(g, Run(g, s, es), s.ins, s.ins)
  {
    var n := s.ins - s.outs;
    var s1 := Step(g, s, StartOut(n));
    Difference(g, s.ins, s.outs);
    StartOutKept(g, s, n);
    var drain := Drains(g, s1);
    var s2 := Run(g, s1, drain);
    ConsumeKept(g, s2);
    RunOn(g, s1, drain, [Consume]);
    assert Run(g, s2, [Consume]) == Step(g, s2, Consume);
    es := [StartOut(n)] + (drain + [Consume]);
    assert es[1..] == drain + [Consume];
  }

  /** In a ring that does not reach, the first read of its last element is outside. */
  lemma Strays(g: Shape, s: State) returns (es: seq<Event>)
    requires Initial(g, s) && !g.Reaches()
    ensures Run(g, s, es).cons.Strayed?
  {
    InitialInv(g, s);
    var last := g.Cap() - 1;
    var send := Sends(g, s, last);
    var s1 := Run(g, s, send);
    var take := Takes(g, s1);
    var s2 := Run(g, s1, take);
    var one := Sends(g, s2, 1);
    var s3 := Run(g, s2, one);
    StrayingRead(g, s3);
    RunOn(g, s2, one, [StartOut(1), CopyOut]);
    RunOn(g, s1, take, one + [StartOut(1), CopyOut]);
    RunOn(g, s, send, take + (one + [StartOut(1), CopyOut]));
    es := send + (take + (one + [StartOut(1), CopyOut]));
  }

  lemma StrayingRead(g: Shape, s: State)
    requires Idle(g, s, g.Cap(), g.Cap() - 1) && !g.Reaches()
    ensures Run(g, s, [StartOut(1), CopyOut]).cons.Strayed?
  {
    var s1 := Step(g, s, StartOut(1));
    Difference(g, s.ins, s.outs);
    StartOutKept(g, s, 1);
    Grows(g.Cap(), g.esize);
    WrapSmall(g.Cap() - 1);
    OffsetsReach(g, s1.cout);
    CopyOutKept(g, s1);
    var es := [StartOut(1), CopyOut];
    assert es[1..] == [CopyOut] && es[1..][1..] == [];
    assert Run(g, s1, [CopyOut]) == Step(g, s1, CopyOut);
  }

  /** Every read of every run is inside the ring exactly if the ring's last element begins below 2^31. */
  lemma ReadsInside(g: Shape, s: State)
    requires Initial(g, s)
    ensures (forall es {:trigger Run(g, s, es)} :: !Run(g, s, es).cons.Strayed?) <==> g.Reaches()
  {
    InitialInv(g, s);
    if g.Reaches() {
      forall es ensures !Run(g, s, es).cons.Strayed? { NeverStrays(g, s, es); }
    } else {
      var es := Strays(g, s);
    }
  }

  /** Four elements of 768 MB: the ring is a valid one, and the consumer can read before its start. */
  lemma WideRingStrays(s: State) returns (es: seq<Event>)
    requires Initial(Shape(2, 805306368), s)
    ensures Run(Shape(2, 805306368), s, es).cons.Strayed?
  {
    assert Pow2(2) == 4;
    es := Strays(Shape(2, 805306368), s);
  }
}
