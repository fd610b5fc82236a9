/** What base64 text means: bits and alphabets, as section 4 and section 5 of RFC 4648 have them. */
module Base64Laws {
  import opened Arithmetic
  import opened Words
  import opened Base64

  const CAPITALS := "ABCDEFGHIJKLMNOPQRSTUVWXYZ"
  const SMALLS := "abcdefghijklmnopqrstuvwxyz"
  const FIGURES := "0123456789"

  /** The two alphabets: the second is for use in URLs and file names. */
  function Alphabet(url: bool): (a: string)
    ensures |a| == 64
  {
    CAPITALS + SMALLS + FIGURES + if url then "-_" else "+/"
  }

  /** Bit `k` of the bytes, most significant first; behind the last byte there are zeros. */
  function BitOf(s: seq<Byte>, k: nat): nat {
    if k / 8 < |s| then ByteBit(s[k / 8], k % 8) else 0
  }

  function ByteBit(a: nat, k: nat): nat
    requires k < 8
  {
    a / [128, 64, 32, 16, 8, 4, 2, 1][k] % 2
  }

  function SixBit(v: nat, k: nat): nat
    requires k < 6
  {
    v / [32, 16, 8, 4, 2, 1][k] % 2
  }

  /** The number that six bits of the bytes make, from bit `k` on. */
  function Window(s: seq<Byte>, k: nat): nat {
    32 * BitOf(s, k) + 16 * BitOf(s, k + 1) + 8 * BitOf(s, k + 2) + 4 * BitOf(s, k + 3) + 2 * BitOf(s, k + 4)
      + BitOf(s, k + 5)
  }

  // The alphabets

  lemma DigitListed(v: Sextet, url: bool)
    ensures Digit(v, url) == Alphabet(url)[v]
  {
    if v < 26 {
      assert Alphabet(url)[v] == CAPITALS[v];
    } else if v < 52 {
      assert Alphabet(url)[v] == SMALLS[v - 26];
    } else if v < 62 {
      assert Alphabet(url)[v] == FIGURES[v - 52];
    }
  }

  /** The table of the decoder lists exactly the alphabet. */
  lemma EntryListed(c: char, url: bool)
    ensures c in Alphabet(url) ==> Entry(c, url) < 64 && Alphabet(url)[Entry(c, url)] == c
    ensures c !in Alphabet(url) ==> Entry(c, url) == 77
    ensures '=' !in Alphabet(url)
  {
    if Entry(c, url) < 64 { DigitOfEntry(c, url); }
    hide Alphabet, Digit;
    forall i | 0 <= i < 64 ensures Entry(Alphabet(url)[i], url) == i && Alphabet(url)[i] != '=' {
      DigitListed(i, url);
      EntryOfDigit(i, url);
    }
    hide Entry;
    EntryRange(c, url);
  }

  lemma DigitOfEntry(c: char, url: bool)
    requires Entry(c, url) < 64
    ensures Alphabet(url)[Entry(c, url)] == c
  {
    DigitListed(Entry(c, url), url);
    hide Alphabet;
  }

  lemma EntryOfDigit(i: Sextet, url: bool)
    ensures Entry(Digit(i, url), url) == i && Digit(i, url) != '='
  {
  }

  lemma EntryRange(c: char, url: bool)
    ensures Entry(c, url) < 64 || Entry(c, url) == 77
  {
  }

  // The bits of one group

  lemma ByteBits(a: Byte)
    ensures a / 4 == 32 * ByteBit(a, 0) + 16 * ByteBit(a, 1) + 8 * ByteBit(a, 2) + 4 * ByteBit(a, 3) + 2 * ByteBit(a, 4)
      + ByteBit(a, 5)
    ensures a % 4 == 2 * ByteBit(a, 6) + ByteBit(a, 7)
    ensures a / 16 == 8 * ByteBit(a, 0) + 4 * ByteBit(a, 1) + 2 * ByteBit(a, 2) + ByteBit(a, 3)
    ensures a % 16 == 8 * ByteBit(a, 4) + 4 * ByteBit(a, 5) + 2 * ByteBit(a, 6) + ByteBit(a, 7)
    ensures a / 64 == 2 * ByteBit(a, 0) + ByteBit(a, 1)
    ensures a % 64 == 32 * ByteBit(a, 2) + 16 * ByteBit(a, 3) + 8 * ByteBit(a, 4) + 4 * ByteBit(a, 5) + 2 * ByteBit(a,
        6)
      + ByteBit(a, 7)
  {
    hide ByteBit;
    Halves(a);
    BitsOfHalves(a);
  }

  lemma BitsOfHalves(a: nat)
    ensures ByteBit(a, 0) == a / 128 % 2 && ByteBit(a, 1) == a / 64 % 2 && ByteBit(a, 2) == a / 32 % 2
    ensures ByteBit(a, 3) == a / 16 % 2 && ByteBit(a, 4) == a / 8 % 2 && ByteBit(a, 5) == a / 4 % 2
    ensures ByteBit(a, 6) == a / 2 % 2 && ByteBit(a, 7) == a % 2
  {
  }

  lemma Halves(a: Byte)
    ensures a == 2 * (a / 2) + a % 2 && a / 2 == 2 * (a / 4) + a / 2 % 2 && a / 4 == 2 * (a / 8) + a / 4 % 2
    ensures a / 8 == 2 * (a / 16) + a / 8 % 2 && a / 16 == 2 * (a / 32) + a / 16 % 2
    ensures a / 32 == 2 * (a / 64) + a / 32 % 2 && a / 64 == 2 * (a / 128) + a / 64 % 2 && a / 128 < 2
    ensures a == 4 * (a / 4) + a % 4 == 16 * (a / 16) + a % 16 == 64 * (a / 64) + a % 64
  {
    HalfOf(a, 2);
    HalfOf(a, 4);
    HalfOf(a, 8);
    HalfOf(a, 16);
    HalfOf(a, 32);
    HalfOf(a, 64);
  }

  lemma HalfOf(a: nat, h: nat)
    requires h > 0
    ensures a / (2 * h) == a / h / 2
  {
    var q := a / h;
    assert a == q * h + a % h && q == q / 2 * 2 + q % 2;
    Distribute(q / 2 * 2, q % 2, h);
    Assoc(q / 2, 2, h);
    TimesGrows(q % 2, 1, h);
    Positive(q % 2, h);
    ModUnique(a, 2 * h, q / 2, q % 2 * h + a % h);
  }

  /** A number below 64 is given by its six bits. */
  lemma SixBits(v: nat, b0: nat, b1: nat, b2: nat, b3: nat, b4: nat, b5: nat)
    requires b0 < 2 && b1 < 2 && b2 < 2 && b3 < 2 && b4 < 2 && b5 < 2
    requires v == 32 * b0 + 16 * b1 + 8 * b2 + 4 * b3 + 2 * b4 + b5
    ensures SixBit(v, 0) == b0 && SixBit(v, 1) == b1 && SixBit(v, 2) == b2
    ensures SixBit(v, 3) == b3 && SixBit(v, 4) == b4 && SixBit(v, 5) == b5
  {
    SixOfHalves(v);
    hide SixBit;
    assert v / 16 == 2 * b0 + b1;
    assert v / 8 == 4 * b0 + 2 * b1 + b2;
    assert v / 4 == 8 * b0 + 4 * b1 + 2 * b2 + b3;
    assert v / 2 == 16 * b0 + 8 * b1 + 4 * b2 + 2 * b3 + b4;
  }

  lemma SixOfHalves(v: nat)
    ensures SixBit(v, 0) == v / 32 % 2 && SixBit(v, 1) == v / 16 % 2 && SixBit(v, 2) == v / 8 % 2
    ensures SixBit(v, 3) == v / 4 % 2 && SixBit(v, 4) == v / 2 % 2 && SixBit(v, 5) == v % 2
  {
  }

  // Encoding

  function At(s: seq<Byte>, i: nat): Byte {
    if i < |s| then s[i] else 0
  }

  lemma BitAt(s: seq<Byte>, i: nat, j: nat)
    requires j < 8
    ensures BitOf(s, 8 * i + j) == ByteBit(At(s, i), j)
  {
    assert (8 * i + j) / 8 == i && (8 * i + j) % 8 == j;
    BitsOfHalves(0);
  }

  lemma Window0(s: seq<Byte>)
    ensures Window(s, 0) == Six1(At(s, 0))
  {
    ByteBits(At(s, 0));
    hide ByteBit, BitOf, At;
    forall j: nat | j < 8 ensures BitOf(s, j) == ByteBit(At(s, 0), j) { BitAt(s, 0, j); }
  }

  lemma Window6(s: seq<Byte>)
    ensures Window(s, 6) == Six2(At(s, 0), At(s, 1))
  {
    ByteBits(At(s, 0));
    ByteBits(At(s, 1));
    hide ByteBit, BitOf, At;
    forall j: nat | j < 8 ensures BitOf(s, j) == ByteBit(At(s, 0), j) { BitAt(s, 0, j); }
    forall j: nat | j < 8 ensures BitOf(s, 8 + j) == ByteBit(At(s, 1), j) { BitAt(s, 1, j); }
  }

  lemma Window12(s: seq<Byte>)
    ensures Window(s, 12) == Six3(At(s, 1), At(s, 2))
  {
    ByteBits(At(s, 1));
    ByteBits(At(s, 2));
    hide ByteBit, BitOf, At;
    forall j: nat | j < 8 ensures BitOf(s, 8 + j) == ByteBit(At(s, 1), j) { BitAt(s, 1, j); }
    forall j: nat | j < 8 ensures BitOf(s, 16 + j) == ByteBit(At(s, 2), j) { BitAt(s, 2, j); }
  }

  lemma Window18(s: seq<Byte>)
    ensures Window(s, 18) == Six4(At(s, 2))
  {
    ByteBits(At(s, 2));
    hide ByteBit, BitOf, At;
    forall j: nat | j < 8 ensures BitOf(s, 16 + j) == ByteBit(At(s, 2), j) { BitAt(s, 2, j); }
  }

  lemma FirstWindows(s: seq<Byte>, i: nat)
    requires i < 4
    ensures Window(s, 6 * i) == Quad(At(s, 0), At(s, 1), At(s, 2))[i]
  {
    hide Window, Six1, Six2, Six3, Six4, At;
    Window0(s);
    Window6(s);
    Window12(s);
    Window18(s);
  }

  /** The last groups are those of the bytes filled up with zeros. */
  lemma LastGroups(s: seq<Byte>)
    requires |s| <= 2
    ensures |LastSextets(s)| == (4 * |s| + 2) / 3
    ensures LastSextets(s) <= Quad(At(s, 0), At(s, 1), At(s, 2))
  {
    hide Six1, Six2, Six3, Six4;
  }

  lemma LaterBits(s: seq<Byte>, k: nat)
    requires |s| >= 3
    ensures BitOf(s, 24 + k) == BitOf(s[3..], k)
  {
    assert (24 + k) / 8 == 3 + k / 8 && (24 + k) % 8 == k % 8;
  }

  lemma LaterWindow(s: seq<Byte>, k: nat)
    requires |s| >= 3
    ensures Window(s, 24 + k) == Window(s[3..], k)
  {
    LaterBits(s, k);
    LaterBits(s, k + 1);
    LaterBits(s, k + 2);
    LaterBits(s, k + 3);
    LaterBits(s, k + 4);
    LaterBits(s, k + 5);
    hide BitOf;
  }

  /** Group `i` of six is bits `6 * i` and following of the bytes, and there are as many as it takes. */
  lemma {:induction false} SextetWindows(s: seq<Byte>, i: nat)
    ensures |Sextets(s)| == (4 * |s| + 2) / 3
    ensures i < |Sextets(s)| ==> Sextets(s)[i] == Window(s, 6 * i)
    decreases |s|
  {
    hide Window, Quad, LastSextets;
    if |s| >= 3 {
      SextetWindows(s[3..], if i < 4 then 0 else i - 4);
      if i < 4 { FirstWindows(s, i); } else { LaterWindow(s, 6 * (i - 4)); }
    } else {
      LastGroups(s);
      if i < |LastSextets(s)| { FirstWindows(s, i); }
    }
  }

  lemma PadCount(n: nat)
    ensures |Padding(n)| == (n + 2) / 3 * 4 - (4 * n + 2) / 3
    ensures forall k: nat {:trigger Padding(n)[k]} :: k < |Padding(n)| ==> Padding(n)[k] == '='
  {
    var q := n / 3;
    assert n == 3 * q + n % 3;
  }

  lemma EncodedChar(s: seq<Byte>, url: bool, i: nat)
    requires i < |Sextets(s)|
    ensures Window(s, 6 * i) < 64 && Digits(Sextets(s), url)[i] == Alphabet(url)[Window(s, 6 * i)]
  {
    SextetWindows(s, i);
    hide Window, Sextets, Alphabet, Digit;
    DigitListed(Sextets(s)[i], url);
  }

  /** What encoding writes: for each six bits of the bytes, from the most significant on, their entry in the
      alphabet; then, if wanted, what is missing of the last four characters is written as equal signs. */
  lemma EncodedText(s: seq<Byte>, url: bool, pad: bool)
    ensures var t, m := Encode(s, url, pad), (4 * |s| + 2) / 3;
      && |t| == (if pad then (|s| + 2) / 3 * 4 else m)
      && (forall i: nat {:trigger t[i]} :: i < m && i < |t| ==>
          Window(s, 6 * i) < 64 && t[i] == Alphabet(url)[Window(s, 6 * i)])
      && (forall i: nat {:trigger t[i]} :: m <= i < |t| ==> t[i] == '=')
  {
    var t, m := Encode(s, url, pad), (4 * |s| + 2) / 3;
    SextetWindows(s, 0);
    PadCount(|s|);
    hide Window, Sextets, Padding, Digits, Alphabet;
    forall i: nat | i < m ensures i < |t| && Window(s, 6 * i) < 64 && t[i] == Alphabet(url)[Window(s, 6 * i)] {
      EncodedChar(s, url, i);
    }
  }

  // Decoding

  /** A group without the bits that belong to no whole byte, if it is the last. */
  function Cut(v: seq<Sextet>, i: nat): nat
    requires i < |v|
  {
    if i < |v| - 1 || |v| % 4 == 0 then v[i] else if |v| % 4 == 2 then v[i] / 16 * 16 else v[i] / 4 * 4
  }

  lemma {:induction false} GroupsBack(v: seq<Sextet>, i: nat)
    requires |v| % 4 != 1
    ensures |Octets(v)| == 3 * |v| / 4 && |Sextets(Octets(v))| == |v|
    ensures i < |v| ==> Sextets(Octets(v))[i] == Cut(v, i)
    decreases |v|
  {
    hide Sextets, Octets, Trio;
    if |v| >= 4 {
      var rest := v[4..];
      GroupsBack(rest, if i < 4 then 0 else i - 4);
      assert v == [v[0], v[1], v[2], v[3]] + rest;
      FirstSextets(v[0], v[1], v[2], v[3], rest);
      OctetsStep([v[0], v[1], v[2], v[3]], rest);
      if i >= 4 && i < |v| { assert Cut(v, i) == Cut(rest, i - 4); }
    } else if |v| == 3 {
      assert v == [v[0], v[1], v[2]];
      LastThree(v[0], v[1], v[2]);
      LastOctetCount(v);
    } else if |v| == 2 {
      assert v == [v[0], v[1]];
      LastTwo(v[0], v[1]);
      LastOctetCount(v);
    } else {
      NoBytes();
    }
  }

  lemma LastOctetCount(v: seq<Sextet>)
    requires 2 <= |v| <= 3
    ensures |Octets(v)| == |v| - 1
  {
    hide Byte1, Byte2;
  }

  /** Bit `j` of group `i` is a bit of the bytes, unless it was cut off. */
  lemma OctetBits(v: seq<Sextet>, i: nat, j: nat)
    requires |v| % 4 != 1 && j < 6 && 6 * i + j < 8 * (3 * |v| / 4)
    ensures i < |v| && BitOf(Octets(v), 6 * i + j) == SixBit(v[i], j)
  {
    hide *;
    GroupsBack(v, i);
    SextetWindows(Octets(v), i);
    WindowBit(Octets(v), 6 * i, j);
    CutBit(v, i, j);
  }

  lemma WindowBit(s: seq<Byte>, k: nat, j: nat)
    requires j < 6
    ensures SixBit(Window(s, k), j) == BitOf(s, k + j)
  {
    WindowBits(s, k);
    hide *;
    assert j == 0 || j == 1 || j == 2 || j == 3 || j == 4 || j == 5;
  }

  lemma CutBit(v: seq<Sextet>, i: nat, j: nat)
    requires |v| % 4 != 1 && j < 6 && 6 * i + j < 8 * (3 * |v| / 4)
    ensures i < |v| && SixBit(Cut(v, i), j) == SixBit(v[i], j)
  {
    var q, r := |v| / 4, |v| % 4;
    assert |v| == 4 * q + r && 3 * |v| / 4 == 3 * q + 3 * r / 4;
    assert 3 * r / 4 == if r == 0 then 0 else r - 1;
    if i == |v| - 1 && r != 0 {
      CutBits(v[i]);
      hide SixBit;
      assert j == 0 || j == 1 || j == 2 || j == 3;
    }
  }

  lemma WindowBits(s: seq<Byte>, k: nat)
    ensures SixBit(Window(s, k), 0) == BitOf(s, k) && SixBit(Window(s, k), 1) == BitOf(s, k + 1)
    ensures SixBit(Window(s, k), 2) == BitOf(s, k + 2) && SixBit(Window(s, k), 3) == BitOf(s, k + 3)
    ensures SixBit(Window(s, k), 4) == BitOf(s, k + 4) && SixBit(Window(s, k), 5) == BitOf(s, k + 5)
  {
    BitIsBit(s, k);
    BitIsBit(s, k + 1);
    BitIsBit(s, k + 2);
    BitIsBit(s, k + 3);
    BitIsBit(s, k + 4);
    BitIsBit(s, k + 5);
    hide BitOf, SixBit;
    SixBits(Window(s, k), BitOf(s, k), BitOf(s, k + 1), BitOf(s, k + 2), BitOf(s, k + 3), BitOf(s, k + 4),
        BitOf(s, k + 5));
  }

  lemma BitIsBit(s: seq<Byte>, k: nat)
    ensures BitOf(s, k) < 2
  {
  }

  lemma CutBits(x: Sextet)
    ensures SixBit(x / 16 * 16, 0) == SixBit(x, 0) && SixBit(x / 16 * 16, 1) == SixBit(x, 1)
    ensures SixBit(x / 4 * 4, 0) == SixBit(x, 0) && SixBit(x / 4 * 4, 1) == SixBit(x, 1)
    ensures SixBit(x / 4 * 4, 2) == SixBit(x, 2) && SixBit(x / 4 * 4, 3) == SixBit(x, 3)
  {
    SixOfHalves(x);
    hide SixBit;
    CutBits16(x);
    CutBits4(x);
  }

  lemma CutBits16(x: Sextet)
    ensures SixBit(x / 16 * 16, 0) == x / 32 % 2 && SixBit(x / 16 * 16, 1) == x / 16 % 2
  {
    SixOfHalves(x / 16 * 16);
    hide SixBit;
    CutSixteen(x / 16);
    HalfOf(x, 16);
  }

  lemma CutBits4(x: Sextet)
    ensures SixBit(x / 4 * 4, 0) == x / 32 % 2 && SixBit(x / 4 * 4, 1) == x / 16 % 2
    ensures SixBit(x / 4 * 4, 2) == x / 8 % 2 && SixBit(x / 4 * 4, 3) == x / 4 % 2
  {
    SixOfHalves(x / 4 * 4);
    hide SixBit;
    CutFour(x / 4);
    HalfOf(x, 4);
    HalfOf(x, 8);
    HalfOf(x, 16);
    HalfOf(x / 4, 2);
    HalfOf(x / 4, 4);
  }

  lemma CutFour(q: nat)
    ensures q * 4 / 32 == q / 8 && q * 4 / 16 == q / 4 && q * 4 / 8 == q / 2 && q * 4 / 4 == q
  {
    HalfOf(q * 4, 4);
    HalfOf(q * 4, 8);
    HalfOf(q * 4, 16);
    HalfOf(q, 2);
    HalfOf(q, 4);
  }

  lemma CutSixteen(q: nat)
    ensures q * 16 / 32 == q / 2 && q * 16 / 16 == q
  {
  }

  /** What decoding reads: the entries of the characters in the alphabet, up to an equal sign or the end, give six
      bits each; all whole bytes are written, but one character more than whole groups of four is refused. */
  lemma DecodedText(t: string, v: seq<Sextet>, rest: string, url: bool)
    requires |v| == |t| && forall i :: 0 <= i < |t| ==> t[i] == Alphabet(url)[v[i]]
    requires rest == "" || rest[0] == '='
    ensures |t| % 4 == 1 ==> Decode(t + rest, url) == Refused
    ensures |t| % 4 != 1 ==> Decode(t + rest, url).Bytes?
    ensures |t| % 4 != 1 ==> var s := Decode(t + rest, url).bytes;
      && |s| == 3 * |t| / 4
      && (forall i: nat, j: nat {:trigger SixBit(v[i], j)} ::
          j < 6 && 6 * i + j < 8 * |s| ==> i < |v| && BitOf(s, 6 * i + j) == SixBit(v[i], j))
  {
    forall i | 0 <= i < |t| ensures t[i] == Digit(v[i], url) { DigitListed(v[i], url); }
    assert t == Digits(v, url);
    DigitsValues(v, url);
    ScanWith(t, rest, url);
    hide Alphabet, Digit, Digits, Legal, Values, Scan, BitOf, SixBit;
    assert (t + rest)[..|t|] == t;
    if |t| % 4 != 1 {
      GroupsBack(v, 0);
      forall i: nat, j: nat | j < 6 && 6 * i + j < 8 * (3 * |t| / 4)
        ensures i < |v| && BitOf(Octets(v), 6 * i + j) == SixBit(v[i], j)
      {
        OctetBits(v, i, j);
      }
    }
  }

  /** The first character that is neither in the alphabet nor an equal sign decides: one below 128 is refused, any
      other is looked up outside the table. */
  lemma StrangeCharacter(t: string, c: char, rest: string, url: bool)
    requires (forall i :: 0 <= i < |t| ==> t[i] in Alphabet(url)) && c !in Alphabet(url) && c != '='
    ensures Decode(t + [c] + rest, url) == if c as int < 128 then Refused else OffTable
  {
    StrangeScan(t, c, rest, url);
    hide Scan, Alphabet;
  }

  lemma {:induction false} StrangeScan(t: string, c: char, rest: string, url: bool)
    requires (forall i :: 0 <= i < |t| ==> t[i] in Alphabet(url)) && c !in Alphabet(url) && c != '='
    ensures Scan(t + [c] + rest, url).0 == if c as int < 128 then Refused else OffTable
  {
    var s := t + [c] + rest;
    EntryListed(s[0], url);
    if t == [] {
      assert s[0] == c;
      hide Alphabet, Entry;
    } else {
      assert s[1..] == t[1..] + [c] + rest && t[0] in Alphabet(url);
      StrangeScan(t[1..], c, rest, url);
      SmallEntry(s[0], url);
      hide Alphabet, Entry;
    }
  }

  lemma SmallEntry(c: char, url: bool)
    ensures Entry(c, url) < 64 ==> c as int < 128
  {
  }
}
