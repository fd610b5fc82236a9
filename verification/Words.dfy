/** Bytes and machine words, as naturals below 2^8 and 2^64, with bits numbered from 0. */
module Words {

  const WORD: nat := 0x1_0000_0000_0000_0000
  const U32: nat := 0x1_0000_0000

  type Word = w: nat | w < 0x1_0000_0000_0000_0000

  type Byte = b: nat | b < 256

  function Pow2(i: nat): (r: nat)
    ensures r > 0
  {
    if i == 0 then 1 else 2 * Pow2(i - 1)
  }

  /** Bit `i` of `w`: the C test `w & (1 << i)`. */
  predicate Bit(w: nat, i: nat) {
    if i == 0 then w % 2 == 1 else Bit(w / 2, i - 1)
  }

  /** The C assignment `w |= 1 << i`. */
  function SetBit(w: nat, i: nat): nat {
    if i == 0 then w / 2 * 2 + 1 else 2 * SetBit(w / 2, i - 1) + w % 2
  }

  /** The C assignment `w &= ~(1 << i)`. */
  function ClearBit(w: nat, i: nat): nat {
    if i == 0 then w / 2 * 2 else 2 * ClearBit(w / 2, i - 1) + w % 2
  }

  lemma {:induction false} SetBitAt(w: nat, i: nat, j: nat)
    ensures Bit(SetBit(w, i), j) == (i == j || Bit(w, j))
  {
    if i > 0 {
      assert SetBit(w, i) / 2 == SetBit(w / 2, i - 1);
      if j > 0 { SetBitAt(w / 2, i - 1, j - 1); }
    }
  }

  lemma {:induction false} ClearBitAt(w: nat, i: nat, j: nat)
    ensures Bit(ClearBit(w, i), j) == (i != j && Bit(w, j))
  {
    if i > 0 {
      assert ClearBit(w, i) / 2 == ClearBit(w / 2, i - 1);
      if j > 0 { ClearBitAt(w / 2, i - 1, j - 1); }
    }
  }

  lemma {:induction false} BitsBelow(w: nat, i: nat, k: nat)
    requires w < Pow2(k) && i < k
    ensures SetBit(w, i) < Pow2(k) && ClearBit(w, i) < Pow2(k)
  {
    if i > 0 { BitsBelow(w / 2, i - 1, k - 1); }
  }

  /** The C shift `w >> n`. */
  function Shr(w: nat, n: nat): nat {
    if n == 0 then w else Shr(w / 2, n - 1)
  }

  /** Shifting right by `n` renumbers the bits; setting or clearing above `n` does so too. */
  lemma {:induction false} HighBits(w: nat, n: nat, i: nat)
    ensures Bit(Shr(w, n), i) == Bit(w, n + i)
    ensures Shr(SetBit(w, n + i), n) == SetBit(Shr(w, n), i)
    ensures Shr(ClearBit(w, n + i), n) == ClearBit(Shr(w, n), i)
  {
    if n > 0 {
      HighBits(w / 2, n - 1, i);
      assert SetBit(w, n + i) / 2 == SetBit(w / 2, n - 1 + i);
      assert ClearBit(w, n + i) / 2 == ClearBit(w / 2, n - 1 + i);
    }
  }

  /** Clearing a bit below `n` is not seen above. */
  lemma {:induction false} ClearBelow(w: nat, n: nat, i: nat)
    requires i < n
    ensures Shr(ClearBit(w, i), n) == Shr(w, n)
  {
    if i > 0 {
      assert ClearBit(w, i) / 2 == ClearBit(w / 2, i - 1);
      ClearBelow(w / 2, n - 1, i - 1);
    }
  }

  /** Reading back the high part of `1 << n | l`. */
  lemma {:induction false} ShrPacked(l: nat, n: nat)
    requires l < Pow2(n)
    ensures Shr(Pow2(n) + l, n) == 1
  {
    if n > 0 {
      assert (Pow2(n) + l) / 2 == Pow2(n - 1) + l / 2;
      ShrPacked(l / 2, n - 1);
    }
  }

  /** The C mask `w & ((1 << n) - 1)`. */
  function Low(w: nat, n: nat): nat {
    if n == 0 then 0 else 2 * Low(w / 2, n - 1) + w % 2
  }

  lemma {:induction false} LowBits(w: nat, n: nat, i: nat)
    requires n <= i
    ensures Low(SetBit(w, i), n) == Low(w, n) && Low(ClearBit(w, i), n) == Low(w, n)
  {
    if n > 0 {
      assert SetBit(w, i) / 2 == SetBit(w / 2, i - 1);
      assert ClearBit(w, i) / 2 == ClearBit(w / 2, i - 1);
      LowBits(w / 2, n - 1, i - 1);
    }
  }

  /** The mask `(1 << n) - 1` has exactly its `n` low bits set. */
  lemma {:induction false} LowMask(n: nat, j: nat)
    ensures Bit(Pow2(n) - 1, j) <==> j < n
  {
    if n == 0 {
      ZeroBits(j);
    } else {
      assert (Pow2(n) - 1) / 2 == Pow2(n - 1) - 1;
      if j > 0 { LowMask(n - 1, j - 1); }
    }
  }

  lemma {:induction false} ZeroBits(j: nat)
    ensures !Bit(0, j)
  {
    if j > 0 { ZeroBits(j - 1); }
  }

  /** A word whose low `k` bits are all set, and that has no others, is all ones. */
  lemma {:induction false} AllOnes(w: nat, k: nat)
    requires w < Pow2(k) && forall j :: 0 <= j < k ==> Bit(w, j)
    ensures w == Pow2(k) - 1
  {
    if k > 0 {
      assert Bit(w, 0);
      forall j | 0 <= j < k - 1 ensures Bit(w / 2, j) { assert Bit(w, j + 1); }
      AllOnes(w / 2, k - 1);
    }
  }

  lemma {:induction false} NoBits(w: nat, k: nat)
    requires w < Pow2(k) && forall j :: 0 <= j < k ==> !Bit(w, j)
    ensures w == 0
  {
    if k > 0 {
      assert !Bit(w, 0);
      forall j | 0 <= j < k - 1 ensures !Bit(w / 2, j) { assert !Bit(w, j + 1); }
      NoBits(w / 2, k - 1);
    }
  }

  lemma {:induction false} Pow2Add(a: nat, b: nat)
    ensures Pow2(a + b) == Pow2(a) * Pow2(b)
  {
    if a > 0 { Pow2Add(a - 1, b); assert a + b - 1 == a - 1 + b; }
  }

  lemma {:induction false} Pow2Grows(a: nat, b: nat)
    requires a <= b
    ensures Pow2(a) <= Pow2(b)
  {
    if a < b { Pow2Grows(a, b - 1); }
  }

  lemma Pow2Values()
    ensures Pow2(3) == 8 && Pow2(4) == 16 && Pow2(5) == 32 && Pow2(6) == 64 && Pow2(7) == 128
    ensures Pow2(8) == 256 && Pow2(9) == 512 && Pow2(10) == 1024 && Pow2(11) == 2048 && Pow2(12) == 4096
    ensures Pow2(16) == 0x1_0000 && Pow2(32) == U32 && Pow2(64) == WORD
  {
    assert Pow2(8) == 256;
    Pow2Add(8, 8);
    Pow2Add(16, 16);
    Pow2Add(32, 32);
  }

  /** The low bits of `1 << n | l` are those of `l`. */
  lemma {:induction false} LowPacked(l: nat, n: nat, m: nat)
    requires m <= n
    ensures Low(Pow2(n) + l, m) == Low(l, m)
  {
    if m > 0 {
      assert (Pow2(n) + l) / 2 == Pow2(n - 1) + l / 2;
      LowPacked(l / 2, n - 1, m - 1);
    }
  }

  lemma {:induction false} LowOfSmall(l: nat, m: nat)
    requires l < Pow2(m)
    ensures Low(l, m) == l
  {
    if m > 0 { LowOfSmall(l / 2, m - 1); }
  }
}
