/** The chunk layer of the slab pool: how pages encode which of their chunks are taken, and what is live. */
module ChunkLayer {
  import opened Words
  import opened PageLayer

  const PAGESIZE: nat := 4096

  /** Bytes in a chunk of slot `s`; the slot's shift is `s + 3`. */
  function Size(s: nat): (r: nat)
    ensures r > 0
  {
    Pow2(s + 3)
  }

  /** Chunks in a page of slot `s`: the page size shifted right by the slot's shift. */
  function Chunks(s: nat): nat {
    Shr(PAGESIZE, s + 3)
  }

  /** Bitmap words in a page of a small slot. */
  function MapWords(s: nat): nat {
    Chunks(s) / 64
  }

  /** Chunks at the start of a small page that hold its bitmap. */
  function Reserved(s: nat): nat {
    if s >= 3 then 0
    else if Chunks(s) / (Size(s) * 8) == 0 then 1 else Chunks(s) / (Size(s) * 8)
  }

  /** The nine slots: chunk size and chunks per page. */
  lemma SlotTable(s: nat)
    requires s < SLOTS
    ensures Size(s) == [8, 16, 32, 64, 128, 256, 512, 1024, 2048][s]
    ensures Chunks(s) == [512, 256, 128, 64, 32, 16, 8, 4, 2][s]
  {
    if s == 0 { assert Pow2(3) == 8 && Shr(4096, 3) == 512; }
    if s == 1 { assert Pow2(4) == 16 && Shr(4096, 4) == 256; }
    if s == 2 { assert Pow2(5) == 32 && Shr(4096, 5) == 128; }
    if s == 3 { assert Pow2(6) == 64 && Shr(4096, 6) == 64; }
    if s == 4 { assert Pow2(7) == 128 && Shr(4096, 7) == 32; }
    if s == 5 { assert Pow2(8) == 256 && Shr(4096, 8) == 16; }
    if s == 6 { assert Pow2(9) == 512 && Shr(4096, 9) == 8; }
    if s == 7 { assert Pow2(10) == 1024 && Shr(4096, 10) == 4; }
    if s == 8 { assert Pow2(11) == 2048 && Shr(4096, 11) == 2; }
  }

  /** The chunks withheld from a small page are those its bitmap reaches into, and no more. */
  lemma OnlyTheBitmap(s: nat)
    requires s < SLOTS
    ensures Reserved(s) == [8, 2, 1, 0, 0, 0, 0, 0, 0][s]
    ensures s < 3 ==> MapWords(s) == [8, 4, 2][s]
    ensures s < 3 ==> (Reserved(s) - 1) * Size(s) < 8 * MapWords(s) <= Reserved(s) * Size(s)
  {
    SlotTable(s);
    assert s == 0 || s == 1 || s == 2 || s == 3 || s == 4 || s == 5 || s == 6 || s == 7 || s == 8;
  }

  lemma Tables(s: nat)
    requires s < SLOTS
    ensures Chunks(s) * Size(s) == PAGESIZE && 2 <= Chunks(s) <= 512 && 8 <= Size(s) <= 2048
    ensures s < 3 ==> MapWords(s) * 64 == Chunks(s) && 2 <= MapWords(s) <= 8 && 1 <= Reserved(s) <= 8
    ensures s < 3 ==> MapWords(s) * 8 <= Reserved(s) * Size(s)
    ensures s == 3 ==> Chunks(s) == 64 && Size(s) == 64
    ensures s > 3 ==> Chunks(s) <= 32
    ensures Reserved(s) + 1 < Chunks(s)
  {
    SlotTable(s);
    assert s == 0 || s == 1 || s == 2 || s == 3 || s == 4 || s == 5 || s == 6 || s == 7 || s == 8;
  }

  /** Chunk `i` of page `p` is marked: in the page's own bitmap, in its `slab` word, or in the upper half of it. */
  predicate Marked(s: nat, slab: nat, mem: seq<Word>, p: nat, i: nat)
    requires s < 3 ==> 512 * p + i / 64 < |mem|
  {
    if s < 3 then Bit(mem[512 * p + i / 64], i % 64) else if s == 3 then Bit(slab, i) else Bit(slab, 32 + i)
  }

  /** The marked chunks of the page are those handed out, `t`, and those that hold a small page's bitmap. */
  ghost predicate PageBits(s: nat, slab: nat, mem: seq<Word>, p: nat, t: set<nat>) {
    && s < SLOTS && 512 * p + 512 <= |mem|
    && (forall i :: i in t ==> Reserved(s) <= i < Chunks(s))
    && (Tables(s);
        forall i: nat {:trigger Marked(s, slab, mem, p, i)} :: i < Chunks(s) ==>
          (Marked(s, slab, mem, p, i) <==> i < Reserved(s) || i in t))
    && (s < 3 ==> slab == s + 3)
    && (s == 3 ==> slab < WORD)
    && (s > 3 ==> Low(slab, 4) == s + 3 && Shr(slab, 32) < Pow2(Chunks(s)))
  }

  /** Some chunk of the page is free. */
  ghost predicate HasRoom(s: nat, t: set<nat>) {
    exists i {:trigger i in t} :: Reserved(s) <= i < Chunks(s) && i !in t
  }

  /** The `slab` word and the memory after chunk `i` is marked. */
  function MarkSlab(s: nat, slab: nat, i: nat): nat {
    if s < 3 then slab else if s == 3 then SetBit(slab, i) else SetBit(slab, 32 + i)
  }

  function MarkMem(s: nat, mem: seq<Word>, p: nat, i: nat): (r: seq<Word>)
    requires s < 3 ==> 512 * p + i / 64 < |mem|
    ensures |r| == |mem|
  {
    if s < 3 then
      var w := 512 * p + i / 64;
      WordBits(mem[w], i % 64);
      mem[w := SetBit(mem[w], i % 64)]
    else mem
  }

  /** The same after it is unmarked. */
  function ClearSlab(s: nat, slab: nat, i: nat): nat {
    if s < 3 then slab else if s == 3 then ClearBit(slab, i) else ClearBit(slab, 32 + i)
  }

  function ClearMem(s: nat, mem: seq<Word>, p: nat, i: nat): (r: seq<Word>)
    requires s < 3 ==> 512 * p + i / 64 < |mem|
    ensures |r| == |mem|
  {
    if s < 3 then
      var w := 512 * p + i / 64;
      WordBits(mem[w], i % 64);
      mem[w := ClearBit(mem[w], i % 64)]
    else mem
  }

  lemma WordBits(w: nat, i: nat)
    requires w < WORD && i < 64
    ensures SetBit(w, i) < WORD && ClearBit(w, i) < WORD
  {
    Pow2Values();
    BitsBelow(w, i, 64);
  }

  lemma MarkAt(s: nat, slab: nat, mem: seq<Word>, p: nat, i: nat, j: nat)
    requires s < SLOTS && (s < 3 ==> 512 * p + i / 64 < |mem| && 512 * p + j / 64 < |mem|)
    ensures Marked(s, MarkSlab(s, slab, i), MarkMem(s, mem, p, i), p, j) <==> i == j || Marked(s, slab, mem, p, j)
    ensures Marked(s, ClearSlab(s, slab, i), ClearMem(s, mem, p, i), p, j) <==> i != j && Marked(s, slab, mem, p, j)
  {
    if s < 3 {
      if i / 64 == j / 64 {
        SetBitAt(mem[512 * p + i / 64], i % 64, j % 64);
        ClearBitAt(mem[512 * p + i / 64], i % 64, j % 64);
      }
    } else if s == 3 {
      SetBitAt(slab, i, j);
      ClearBitAt(slab, i, j);
    } else {
      SetBitAt(slab, 32 + i, 32 + j);
      ClearBitAt(slab, 32 + i, 32 + j);
    }
  }

  lemma SlabWordBits(s: nat, slab: nat, i: nat)
    requires s < SLOTS && i < Chunks(s)
    ensures s == 3 && slab < WORD ==> MarkSlab(s, slab, i) < WORD && ClearSlab(s, slab, i) < WORD
    ensures s > 3 && Shr(slab, 32) < Pow2(Chunks(s)) ==>
      && Low(MarkSlab(s, slab, i), 4) == Low(slab, 4) && Shr(MarkSlab(s, slab, i), 32) < Pow2(Chunks(s))
      && Low(ClearSlab(s, slab, i), 4) == Low(slab, 4) && Shr(ClearSlab(s, slab, i), 32) < Pow2(Chunks(s))
  {
    Tables(s);
    if s == 3 && slab < WORD { WordBits(slab, i); }
    if s > 3 && Shr(slab, 32) < Pow2(Chunks(s)) { HighMapBits(s, slab, i); }
  }

  lemma HighMapBits(s: nat, slab: nat, i: nat)
    requires i < Chunks(s) && Shr(slab, 32) < Pow2(Chunks(s))
    ensures var a := SetBit(slab, 32 + i); Low(a, 4) == Low(slab, 4) && Shr(a, 32) < Pow2(Chunks(s))
    ensures var b := ClearBit(slab, 32 + i); Low(b, 4) == Low(slab, 4) && Shr(b, 32) < Pow2(Chunks(s))
  {
    hide SetBit, ClearBit, Low, Shr, Pow2;
    LowBits(slab, 4, 32 + i);
    HighBits(slab, 32, i);
    BitsBelow(Shr(slab, 32), i, Chunks(s));
  }

  /** Marking a free chunk hands it out. */
  lemma MarkChunk(s: nat, slab: nat, mem: seq<Word>, p: nat, t: set<nat>, i: nat)
    requires PageBits(s, slab, mem, p, t) && Reserved(s) <= i < Chunks(s)
    requires s < 3 ==> 512 * p + i / 64 < |mem|
    ensures PageBits(s, MarkSlab(s, slab, i), MarkMem(s, mem, p, i), p, t + {i})
  {
    Tables(s);
    SlabWordBits(s, slab, i);
    forall j: nat | j < Chunks(s)
      ensures Marked(s, MarkSlab(s, slab, i), MarkMem(s, mem, p, i), p, j) <==> j < Reserved(s) || j in t + {i}
    {
      MarkAt(s, slab, mem, p, i, j);
    }
  }

  /** Unmarking a chunk takes it back. */
  lemma ClearChunk(s: nat, slab: nat, mem: seq<Word>, p: nat, t: set<nat>, i: nat)
    requires PageBits(s, slab, mem, p, t) && Reserved(s) <= i < Chunks(s)
    requires s < 3 ==> 512 * p + i / 64 < |mem|
    ensures PageBits(s, ClearSlab(s, slab, i), ClearMem(s, mem, p, i), p, t - {i})
  {
    Tables(s);
    SlabWordBits(s, slab, i);
    forall j: nat | j < Chunks(s)
      ensures Marked(s, ClearSlab(s, slab, i), ClearMem(s, mem, p, i), p, j) <==> j < Reserved(s) || j in t - {i}
    {
      MarkAt(s, slab, mem, p, i, j);
    }
  }

  /** Word `k` of page `p`. */
  function WordAt(mem: seq<Word>, p: nat, k: nat): Word
    requires 512 * p + k < |mem|
  {
    mem[512 * p + k]
  }

  /** The words of page `p`'s bitmap from word `from` on are all ones. */
  ghost predicate WordsFull(s: nat, mem: seq<Word>, p: nat, from: nat)
    requires s < 3 && 512 * p + 512 <= |mem|
  {
    Tables(s);
    forall k: nat {:trigger WordAt(mem, p, k)} :: from <= k < MapWords(s) ==> WordAt(mem, p, k) == BUSY
  }

  lemma FullWord(w: nat, j: nat)
    requires w == BUSY && j < 64
    ensures Bit(w, j)
  {
    Pow2Values();
    assert w == Pow2(64) - 1;
    LowMask(64, j);
  }

  lemma WordIsFull(w: nat)
    requires w < WORD && forall j: nat :: j < 64 ==> Bit(w, j)
    ensures w == BUSY
  {
    Pow2Values();
    AllOnes(w, 64);
  }

  /** The tests for a full page recognise exactly the pages without room. */
  lemma FullTest(s: nat, slab: nat, mem: seq<Word>, p: nat, t: set<nat>)
    requires PageBits(s, slab, mem, p, t)
    ensures s < 3 ==> (WordsFull(s, mem, p, 0) <==> !HasRoom(s, t))
    ensures s == 3 ==> (slab == BUSY <==> !HasRoom(s, t))
    ensures s > 3 ==> (Shr(slab, 32) == Pow2(Chunks(s)) - 1 <==> !HasRoom(s, t))
  {
    Tables(s);
    if s < 3 { FullSmall(s, slab, mem, p, t); } else if s == 3 { FullExact(slab, mem, p, t); }
        else { FullBig(s, slab, mem, p, t); }
  }

  lemma FullSmall(s: nat, slab: nat, mem: seq<Word>, p: nat, t: set<nat>)
    requires PageBits(s, slab, mem, p, t) && s < 3
    ensures WordsFull(s, mem, p, 0) <==> !HasRoom(s, t)
  {
    Tables(s);
    if WordsFull(s, mem, p, 0) {
      forall i: nat | i < Chunks(s) ensures i < Reserved(s) || i in t {
        FullWord(WordAt(mem, p, i / 64), i % 64);
        assert Marked(s, slab, mem, p, i);
      }
    }
    if !HasRoom(s, t) {
      forall k: nat | k < MapWords(s) ensures WordAt(mem, p, k) == BUSY {
        forall j: nat | j < 64 ensures Bit(WordAt(mem, p, k), j) { assert Marked(s, slab, mem, p, 64 * k + j); }
        WordIsFull(WordAt(mem, p, k));
      }
    }
  }

  lemma FullExact(slab: nat, mem: seq<Word>, p: nat, t: set<nat>)
    requires PageBits(3, slab, mem, p, t)
    ensures slab == BUSY <==> !HasRoom(3, t)
  {
    Tables(3);
    if slab == BUSY {
      forall i: nat | i < Chunks(3) ensures i in t { FullWord(slab, i); assert Marked(3, slab, mem, p, i); }
    }
    if !HasRoom(3, t) {
      forall j: nat | j < 64 ensures Bit(slab, j) { assert Marked(3, slab, mem, p, j); }
      WordIsFull(slab);
    }
  }

  lemma FullBig(s: nat, slab: nat, mem: seq<Word>, p: nat, t: set<nat>)
    requires PageBits(s, slab, mem, p, t) && s > 3
    ensures Shr(slab, 32) == Pow2(Chunks(s)) - 1 <==> !HasRoom(s, t)
  {
    Tables(s);
    if Shr(slab, 32) == Pow2(Chunks(s)) - 1 {
      forall i: nat | i < Chunks(s) ensures i in t {
        LowMask(Chunks(s), i);
        HighBits(slab, 32, i);
        assert Marked(s, slab, mem, p, i);
      }
    }
    if !HasRoom(s, t) {
      forall i: nat | i < Chunks(s) ensures Bit(Shr(slab, 32), i) {
        HighBits(slab, 32, i);
        assert Marked(s, slab, mem, p, i);
      }
      AllOnes(Shr(slab, 32), Chunks(s));
    }
  }

  /** The tests for an empty page recognise exactly the pages with nothing handed out. */
  lemma EmptyTest(s: nat, slab: nat, mem: seq<Word>, p: nat, t: set<nat>)
    requires PageBits(s, slab, mem, p, t)
    ensures s < 3 ==> (Shr(mem[512 * p], Reserved(s)) == 0 && WordsZero(s, mem, p, 1) <==> t == {})
    ensures s == 3 ==> (slab == 0 <==> t == {})
    ensures s > 3 ==> (Shr(slab, 32) == 0 <==> t == {})
  {
    if s < 3 { EmptySmall(s, slab, mem, p, t); } else if s == 3 { EmptyExact(slab, mem, p, t); }
        else { EmptyBig(s, slab, mem, p, t); }
  }

  /** The words of page `p`'s bitmap from word `from` on are zero. */
  ghost predicate WordsZero(s: nat, mem: seq<Word>, p: nat, from: nat)
    requires s < 3 && 512 * p + 512 <= |mem|
  {
    Tables(s);
    forall k: nat {:trigger WordAt(mem, p, k)} :: from <= k < MapWords(s) ==> WordAt(mem, p, k) == 0
  }

  lemma ZeroWord(w: nat, n: nat, j: nat)
    requires Shr(w, n) == 0 && n <= j
    ensures !Bit(w, j)
  {
    HighBits(w, n, j - n);
    ZeroBits(j - n);
  }

  lemma WordIsZero(w: nat, n: nat)
    requires w < WORD && n <= 64 && forall j: nat :: n <= j < 64 ==> !Bit(w, j)
    ensures Shr(w, n) == 0
  {
    Pow2Values();
    ShrBelow(w, n, 64);
    forall j: nat | j < 64 - n ensures !Bit(Shr(w, n), j) { HighBits(w, n, j); }
    NoBits(Shr(w, n), 64 - n);
  }

  lemma {:induction false} ShrBelow(w: nat, n: nat, k: nat)
    requires w < Pow2(k) && n <= k
    ensures Shr(w, n) < Pow2(k - n)
  {
    if n > 0 { ShrBelow(w / 2, n - 1, k - 1); }
  }

  lemma EmptySmall(s: nat, slab: nat, mem: seq<Word>, p: nat, t: set<nat>)
    requires PageBits(s, slab, mem, p, t) && s < 3
    ensures Shr(mem[512 * p], Reserved(s)) == 0 && WordsZero(s, mem, p, 1) <==> t == {}
  {
    Tables(s);
    assert WordAt(mem, p, 0) == mem[512 * p];
    if Shr(mem[512 * p], Reserved(s)) == 0 && WordsZero(s, mem, p, 1) {
      forall i | i in t ensures false {
        assert Marked(s, slab, mem, p, i);
        assert Bit(WordAt(mem, p, i / 64), i % 64);
        if i < 64 { ZeroWord(mem[512 * p], Reserved(s), i); } else { ZeroBits(i % 64); }
      }
    }
    if t == {} {
      forall j: nat | Reserved(s) <= j < 64 ensures !Bit(mem[512 * p], j) { assert !Marked(s, slab, mem, p, j); }
      WordIsZero(mem[512 * p], Reserved(s));
      forall k: nat | 1 <= k < MapWords(s) ensures WordAt(mem, p, k) == 0 {
        forall j: nat | j < 64 ensures !Bit(WordAt(mem, p, k), j) { assert !Marked(s, slab, mem, p, 64 * k + j); }
        WordIsZero(WordAt(mem, p, k), 0);
      }
    }
  }

  lemma EmptyExact(slab: nat, mem: seq<Word>, p: nat, t: set<nat>)
    requires PageBits(3, slab, mem, p, t)
    ensures slab == 0 <==> t == {}
  {
    Tables(3);
    if slab == 0 {
      forall i | i in t ensures false { assert Marked(3, slab, mem, p, i); ZeroBits(i); }
    }
    if t == {} {
      forall j: nat | j < 64 ensures !Bit(slab, j) { assert !Marked(3, slab, mem, p, j); }
      WordIsZero(slab, 0);
    }
  }

  lemma EmptyBig(s: nat, slab: nat, mem: seq<Word>, p: nat, t: set<nat>)
    requires PageBits(s, slab, mem, p, t) && s > 3
    ensures Shr(slab, 32) == 0 <==> t == {}
  {
    Tables(s);
    if Shr(slab, 32) == 0 {
      forall i | i in t ensures false { assert Marked(s, slab, mem, p, i); HighBits(slab, 32, i); ZeroBits(i); }
    }
    if t == {} {
      forall i: nat | i < Chunks(s) ensures !Bit(Shr(slab, 32), i) {
        HighBits(slab, 32, i);
        assert !Marked(s, slab, mem, p, i);
      }
      NoBits(Shr(slab, 32), Chunks(s));
    }
  }

  /** Clearing the mark of a chunk that holds the bitmap is not seen by the test for an empty page, and the marks
      no longer say what is handed out. */
  lemma ReservedCleared(s: nat, slab: nat, mem: seq<Word>, p: nat, t: set<nat>, i: nat)
    requires PageBits(s, slab, mem, p, t) && s < 3 && i < Reserved(s) && t != {}
    ensures Bit(mem[512 * p], i) && ClearBit(mem[512 * p], i) < WORD && !Bit(ClearBit(mem[512 * p], i), i)
    ensures var mem' := mem[512 * p := ClearBit(mem[512 * p], i)];
      !PageBits(s, slab, mem', p, t) && !(Shr(mem'[512 * p], Reserved(s)) == 0 && WordsZero(s, mem', p, 1))
  {
    Tables(s);
    WordBits(mem[512 * p], i);
    var mem' := mem[512 * p := ClearBit(mem[512 * p], i)];
    assert Marked(s, slab, mem, p, i);
    ClearBitAt(mem[512 * p], i, i);
    assert !Marked(s, slab, mem', p, i);
    EmptyTest(s, slab, mem, p, t);
    ClearBelow(mem[512 * p], Reserved(s), i);
    if WordsZero(s, mem', p, 1) {
      forall k: nat | 1 <= k < MapWords(s) ensures WordAt(mem, p, k) == 0 { assert WordAt(mem', p, k) == 0; }
    }
  }

  /** Chunk `i` is the first one of the page that is free. */
  ghost predicate FirstFree(s: nat, t: set<nat>, i: nat) {
    Reserved(s) <= i < Chunks(s) && i !in t && forall j: nat :: Reserved(s) <= j < i ==> j in t
  }

  /** The first clear bit of a small page's bitmap is its first free chunk. */
  lemma FirstIsFree(s: nat, slab: nat, mem: seq<Word>, p: nat, t: set<nat>, w: nat, j: nat)
    requires PageBits(s, slab, mem, p, t) && s < 3 && w < MapWords(s) <= 8 && j < 64 && !Bit(WordAt(mem, p, w), j)
    requires forall k: nat {:trigger WordAt(mem, p, k)} :: k < w ==> WordAt(mem, p, k) == BUSY
    requires forall k: nat :: k < j ==> Bit(WordAt(mem, p, w), k)
    ensures FirstFree(s, t, 64 * w + j)
  {
    Tables(s);
    var i := 64 * w + j;
    assert !Marked(s, slab, mem, p, i);
    forall k: nat | Reserved(s) <= k < i ensures k in t {
      if k / 64 < w { FullWord(WordAt(mem, p, k / 64), k % 64); }
      assert Bit(WordAt(mem, p, k / 64), k % 64);
      assert Marked(s, slab, mem, p, k);
    }
  }

  /** After the mark, the page is full exactly when the marked word and those behind it are. */
  lemma FirstWords(s: nat, mem: seq<Word>, mem': seq<Word>, p: nat, w: nat, j: nat)
    requires s < 3 && w < MapWords(s) <= 8 && j < 64 && 512 * p + 512 <= |mem|
    requires mem' == MarkMem(s, mem, p, 64 * w + j)
    requires forall k: nat {:trigger WordAt(mem, p, k)} :: k < w ==> WordAt(mem, p, k) == BUSY
    ensures WordsFull(s, mem', p, 0) <==> mem'[512 * p + w] == BUSY && WordsFull(s, mem', p, w + 1)
  {
    assert (64 * w + j) / 64 == w;
    assert forall k: nat {:trigger WordAt(mem', p, k)} :: k < w ==> WordAt(mem', p, k) == WordAt(mem, p, k);
    assert WordAt(mem', p, w) == mem'[512 * p + w];
  }

  /** The first clear mark of an exact or big page is its first free chunk. */
  lemma SlabFirstFree(s: nat, slab: nat, mem: seq<Word>, p: nat, t: set<nat>, j: nat)
    requires PageBits(s, slab, mem, p, t) && 3 <= s < SLOTS && j < Chunks(s)
    requires !Bit(slab, if s == 3 then j else 32 + j)
    requires forall k: nat {:trigger Marked(s, slab, mem, p, k)} :: k < j ==> Marked(s, slab, mem, p, k)
    ensures FirstFree(s, t, j)
  {
    assert !Marked(s, slab, mem, p, j);
    forall k: nat | k < j ensures k in t { assert Marked(s, slab, mem, p, k); }
  }

  /** The first marks written to a fresh small page: its bitmap's own chunks and the one requested. */
  lemma NewSmall(s: nat, slab: nat, mem: seq<Word>, p: nat)
    requires s < 3 && 512 * p + 512 <= |mem| && slab == s + 3
    requires mem[512 * p] == Pow2(Reserved(s) + 1) - 1
    requires forall k: nat {:trigger WordAt(mem, p, k)} :: 1 <= k < 8 && k < MapWords(s) ==> WordAt(mem, p, k) == 0
    ensures PageBits(s, slab, mem, p, {Reserved(s)}) && HasRoom(s, {Reserved(s)})
  {
    Tables(s);
    var r := Reserved(s);
    var t := {r};
    assert WordAt(mem, p, 0) == mem[512 * p];
    forall i: nat | i < Chunks(s) ensures Marked(s, slab, mem, p, i) <==>
        i < r || i in t { NewSmallMark(s, slab, mem, p, i); }
    assert r + 1 !in t && forall i :: i in t ==> i == r;
  }

  lemma NewSmallMark(s: nat, slab: nat, mem: seq<Word>, p: nat, i: nat)
    requires s < 3 && 512 * p + 512 <= |mem| && i < Chunks(s) <= 512 && MapWords(s) <= 8 && Reserved(s) < 63
    requires WordAt(mem, p, 0) == Pow2(Reserved(s) + 1) - 1
    requires forall k: nat {:trigger WordAt(mem, p, k)} :: 1 <= k < 8 && k < MapWords(s) ==> WordAt(mem, p, k) == 0
    ensures Marked(s, slab, mem, p, i) <==> i < Reserved(s) + 1
  {
    var w, j := i / 64, i % 64;
    assert Marked(s, slab, mem, p, i) == Bit(WordAt(mem, p, w), j);
    hide Marked, Bit, Pow2, Reserved;
    if w == 0 {
      LowMask(Reserved(s) + 1, j);
    } else {
      assert WordAt(mem, p, w) == 0;
      ZeroBits(j);
    }
  }

  lemma SmallFirstWord(s: nat)
    requires s < 3
    ensures Pow2(Reserved(s) + 1) - 1 < WORD
  {
    Tables(s);
    Pow2Values();
    Pow2Grows(Reserved(s) + 1, 64);
  }

  /** The same for an exact page and for a big one. */
  lemma NewSlab(s: nat, slab: nat, mem: seq<Word>, p: nat)
    requires 3 <= s < SLOTS && 512 * p + 512 <= |mem|
    requires slab == if s == 3 then 1 else U32 + s + 3
    ensures PageBits(s, slab, mem, p, {Reserved(s)}) && HasRoom(s, {Reserved(s)})
  {
    Tables(s);
    if s > 3 { NewBigWord(s, slab); }
    var t := {Reserved(s)};
    forall i: nat | i < Chunks(s) ensures Marked(s, slab, mem, p, i) <==> i in t {
      LowMask(1, i);
      assert Pow2(1) == 2;
      if s > 3 { HighBits(slab, 32, i); }
    }
    assert Reserved(s) + 1 !in t;
  }

  lemma NewBigWord(s: nat, slab: nat)
    requires 3 < s < SLOTS && slab == U32 + s + 3 && 2 <= Chunks(s)
    ensures Shr(slab, 32) == 1 < Pow2(Chunks(s)) && Low(slab, 4) == s + 3
  {
    Pow2Values();
    ShrPacked(s + 3, 32);
    LowPacked(s + 3, 32, 4);
    LowOfSmall(s + 3, 4);
    Pow2Grows(1, Chunks(s));
  }

  lemma {:induction false} ShrZero(w: nat, n: nat)
    ensures Shr(w, n) == 0 <==> w < Pow2(n)
  {
    if n > 0 { ShrZero(w / 2, n - 1); }
  }

  lemma {:induction false} ShrStep(w: nat, n: nat)
    ensures Shr(w, n + 1) == Shr(w, n) / 2
  {
    if n > 0 { ShrStep(w / 2, n - 1); }
  }

  /** The slot that serves a request: its chunks are the smallest that are large enough. */
  ghost predicate ServedBy(size: nat, s: nat) {
    s < SLOTS && size <= Size(s) && (s > 0 ==> Size(s - 1) < size)
  }

  /** Only one slot serves a request. */
  lemma OneSlotServes(size: nat, s: nat, r: nat)
    requires ServedBy(size, s) && ServedBy(size, r)
    ensures s == r
  {
    if s < r { Pow2Grows(s + 3, r + 2); }
    if r < s { Pow2Grows(r + 3, s + 2); }
  }

  /** Pages asked for, as the caller's 32-bit count: the request in pages, rounded up. */
  function PageCount(size: nat): nat {
    (size / PAGESIZE + if size % PAGESIZE != 0 then 1 else 0) % U32
  }

  /** The 32-bit count covers the request exactly when the request is at most 2^44 bytes less one page; of 2^44
      bytes it is zero. */
  lemma PageCountCovers(size: nat)
    ensures size == 0x1000_0000_0000 ==> PageCount(size) == 0
    ensures PAGESIZE * PageCount(size) >= size <==> size <= PAGESIZE * (U32 - 1)
    ensures size <= PAGESIZE * (U32 - 1) ==> size > 0 ==> 0 < PageCount(size) && PAGESIZE * (PageCount(size) - 1) < size
  {
  }

  /** A slot's page of any type gives back its slot. */
  lemma SlotShift(s: nat, slab: nat, mem: seq<Word>, p: nat, t: set<nat>)
    requires PageBits(s, slab, mem, p, t)
    ensures s != 3 ==> Low(slab, 4) == s + 3
    ensures TagOf(s) == 3 <==> s < 3
    ensures TagOf(s) == 2 <==> s == 3
  {
    if s < 3 {
      assert Pow2(4) == 16;
      LowOfSmall(slab, 4);
    }
  }
}
