/** Base64, with both alphabets, padded or not: encoding and decoding are inverse to each other. */
module Base64 {
  import opened Arithmetic
  import opened Words

  type Sextet = v: nat | v < 64

  const PAD: char := '='

  /** The character for six bits; the last two differ between the alphabets. */
  function Digit(v: Sextet, url: bool): char {
    if v < 26 then ('A' as int + v) as char
    else if v < 52 then ('a' as int + v - 26) as char
    else if v < 62 then ('0' as int + v - 52) as char
    else if v == 62 then (if url then '-' else '+')
    else (if url then '_' else '/')
  }

  /** The table entry of a character: its six bits, or 77. */
  function Entry(c: char, url: bool): nat {
    if 'A' <= c <= 'Z' then c as int - 'A' as int
    else if 'a' <= c <= 'z' then c as int - 'a' as int + 26
    else if '0' <= c <= '9' then c as int - '0' as int + 52
    else if c == (if url then '-' else '+') then 62
    else if c == (if url then '_' else '/') then 63
    else 77
  }

  function Digits(v: seq<Sextet>, url: bool): (t: string)
    ensures |t| == |v|
  {
    seq(|v|, i requires 0 <= i < |v| => Digit(v[i], url))
  }

  predicate Legal(t: string, url: bool) {
    forall i :: 0 <= i < |t| ==> Entry(t[i], url) < 64
  }

  function Values(t: string, url: bool): (v: seq<Sextet>)
    requires Legal(t, url)
    ensures |v| == |t|
  {
    seq(|t|, i requires 0 <= i < |t| => Entry(t[i], url))
  }

  // Three bytes are four groups of six bits

  function Six1(a: Byte): Sextet {
    a / 4
  }

  function Six2(a: Byte, b: Byte): Sextet {
    a % 4 * 16 + b / 16
  }

  function Six3(b: Byte, c: Byte): Sextet {
    b % 16 * 4 + c / 64
  }

  function Six4(c: Byte): Sextet {
    c % 64
  }

  function Byte1(w: Sextet, x: Sextet): Byte {
    (w * 4 + x / 16) % 256
  }

  function Byte2(x: Sextet, y: Sextet): Byte {
    (x * 16 + y / 4) % 256
  }

  function Byte3(y: Sextet, z: Sextet): Byte {
    (y * 64 + z) % 256
  }

  lemma BytesBack(a: Byte, b: Byte, c: Byte)
    ensures Byte1(Six1(a), Six2(a, b)) == a && Byte2(Six2(a, b), Six3(b, c)) == b && Byte3(Six3(b, c), Six4(c)) == c
  {
    Byte1Back(a, b / 16);
    Byte2Back(a % 4, b, c / 64);
    Byte3Back(b % 16, c);
  }

  lemma Byte1Back(a: Byte, r: nat)
    requires r < 16
    ensures (a / 4 * 4 + (a % 4 * 16 + r) / 16) % 256 == a
  {
  }

  lemma Byte2Back(q: nat, b: Byte, r: nat)
    requires q < 4 && r < 4
    ensures ((q * 16 + b / 16) * 16 + (b % 16 * 4 + r) / 4) % 256 == b
  {
    ModUnique(b % 16 * 4 + r, 4, b % 16, r);
    ModUnique(q * 256 + b, 256, q, b);
    assert (q * 16 + b / 16) * 16 + b % 16 == q * 256 + b;
  }

  lemma Byte3Back(q: nat, c: Byte)
    requires q < 16
    ensures ((q * 4 + c / 64) * 64 + c % 64) % 256 == c
  {
    assert (q * 4 + c / 64) * 64 + c % 64 == q * 256 + c;
  }

  lemma SixesBack(w: Sextet, x: Sextet, y: Sextet, z: Sextet)
    ensures Six1(Byte1(w, x)) == w && Six2(Byte1(w, x), Byte2(x, y)) == x
    ensures Six3(Byte2(x, y), Byte3(y, z)) == y && Six4(Byte3(y, z)) == z
  {
    OutByte1(w, x);
    OutByte2(x, y);
    OutByte3(y, z);
    hide Byte1, Byte2, Byte3;
    ModUnique(Byte1(w, x), 4, w, x / 16);
    ModUnique(Byte2(x, y), 16, x % 16, y / 4);
    ModUnique(Byte3(y, z), 64, y % 4, z);
  }

  /** The bytes without the truncation. */
  lemma OutByte1(w: Sextet, x: Sextet)
    ensures Byte1(w, x) == w * 4 + x / 16
  {
  }

  lemma OutByte2(x: Sextet, y: Sextet)
    ensures Byte2(x, y) == x % 16 * 16 + y / 4
  {
    ModUnique(x * 16 + y / 4, 256, x / 16, x % 16 * 16 + y / 4);
  }

  lemma OutByte3(y: Sextet, z: Sextet)
    ensures Byte3(y, z) == y % 4 * 64 + z
  {
    ModUnique(y * 64 + z, 256, y / 4, y % 4 * 64 + z);
  }

  function Quad(a: Byte, b: Byte, c: Byte): (v: seq<Sextet>)
    ensures |v| == 4
  {
    [Six1(a), Six2(a, b), Six3(b, c), Six4(c)]
  }

  function Trio(w: Sextet, x: Sextet, y: Sextet, z: Sextet): (s: seq<Byte>)
    ensures |s| == 3
  {
    [Byte1(w, x), Byte2(x, y), Byte3(y, z)]
  }

  lemma TrioOfQuad(a: Byte, b: Byte, c: Byte)
    ensures var v := Quad(a, b, c); Trio(v[0], v[1], v[2], v[3]) == [a, b, c]
  {
    BytesBack(a, b, c);
  }

  /** The bits of the source in groups of six, filled up with zeros at the end. */
  function Sextets(s: seq<Byte>): seq<Sextet> {
    if |s| <= 2 then LastSextets(s) else Quad(s[0], s[1], s[2]) + Sextets(s[3..])
  }

  function LastSextets(s: seq<Byte>): seq<Sextet>
    requires |s| <= 2
  {
    if s == [] then []
    else if |s| == 1 then [Six1(s[0]), Six2(s[0], 0)]
    else [Six1(s[0]), Six2(s[0], s[1]), Six3(s[1], 0)]
  }

  /** The bytes, from four groups at a time; bits left over at the end are dropped. */
  function Octets(v: seq<Sextet>): seq<Byte> {
    if |v| <= 3 then LastOctets(v) else Trio(v[0], v[1], v[2], v[3]) + Octets(v[4..])
  }

  function LastOctets(v: seq<Sextet>): seq<Byte>
    requires |v| <= 3
  {
    if |v| <= 1 then []
    else if |v| == 2 then [Byte1(v[0], v[1])]
    else [Byte1(v[0], v[1]), Byte2(v[1], v[2])]
  }

  /** How many pad characters follow. */
  function Padding(n: nat): string {
    if n % 3 == 0 then "" else if n % 3 == 1 then [PAD, PAD] else [PAD]
  }

  function Encode(s: seq<Byte>, url: bool, pad: bool): string {
    Digits(Sextets(s), url) + if pad then Padding(|s|) else ""
  }

  /** A character from 128 up is a negative number, and its entry would be read before the table. */
  datatype Decoded = Bytes(bytes: seq<Byte>) | Refused | OffTable

  /** Up to the first pad character: how many characters there are, or what is wrong with the first that has no
      six bits. */
  function Scan(t: string, url: bool): (r: (Decoded, nat))
    ensures r.1 <= |t| && (r.0.Bytes? ==> r.0 == Bytes([]) && Legal(t[..r.1], url))
  {
    if t == [] || t[0] == PAD then (Bytes([]), 0)
    else if t[0] as int >= 128 then (OffTable, 0)
    else if Entry(t[0], url) >= 64 then (Refused, 0)
    else
      var r := Scan(t[1..], url);
      assert forall i :: 0 < i < r.1 + 1 ==> t[i] == t[1..][..r.1][i - 1];
      (r.0, r.1 + 1)
  }

  function Decode(t: string, url: bool): Decoded {
    var r := Scan(t, url);
    if !r.0.Bytes? then r.0 else if r.1 % 4 == 1 then Refused else Bytes(Octets(Values(t[..r.1], url)))
  }

  // The loops

  /** Three bytes become four characters; what is left becomes two or three, and pad characters. */
  method EncodeInternal(src: seq<Byte>, url: bool, padding: bool) returns (dst: string)
    ensures dst == Encode(src, url, padding)
  {
    hide Quad, Sextets, Digits;
    dst := "";
    var at := 0;
    assert src[0..] == src;
    while |src| - at > 2
      invariant 0 <= at <= |src| && at % 3 == 0 && dst + Digits(Sextets(src[at..]), url) == Digits(Sextets(src), url)
    {
      GroupDone(dst, src[at..], url);
      dst := dst + Digits(Quad(src[at], src[at + 1], src[at + 2]), url);
      assert src[at..][3..] == src[at + 3..];
      at := at + 3;
    }
    var last := EncodeRest(src[at..], url, padding);
    assert (|src| - at) % 3 == |src| % 3;
    dst := dst + last;
  }

  method EncodeRest(s: seq<Byte>, url: bool, padding: bool) returns (dst: string)
    requires |s| <= 2
    ensures dst == Digits(Sextets(s), url) + if padding then Padding(|s|) else ""
  {
    hide Digit, Six1, Six2, Six3;
    dst := "";
    if |s| > 0 {
      dst := [Digit(Six1(s[0]), url)];
      if |s| == 1 {
        dst := dst + [Digit(Six2(s[0], 0), url)];
        if padding { dst := dst + [PAD]; }
      } else {
        dst := dst + [Digit(Six2(s[0], s[1]), url)] + [Digit(Six3(s[1], 0), url)];
      }
      if padding { dst := dst + [PAD]; }
    }
  }

  lemma DigitsSum(v: seq<Sextet>, w: seq<Sextet>, url: bool)
    ensures Digits(v + w, url) == Digits(v, url) + Digits(w, url)
  {
    hide Digit;
  }

  lemma GroupDone(done: string, s: seq<Byte>, url: bool)
    requires |s| >= 3
    ensures done + Digits(Sextets(s), url) ==
      (done + Digits(Quad(s[0], s[1], s[2]), url)) + Digits(Sextets(s[3..]), url)
  {
    hide Quad, Digits;
    DigitsSum(Quad(s[0], s[1], s[2]), Sextets(s[3..]), url);
  }

  /** How many characters there are before the padding, or what is wrong with the first that is not legal. */
  method ScanText(src: string, url: bool) returns (r: Decoded, len: nat)
    ensures (r, len) == Scan(src, url)
  {
    len := 0;
    assert src[0..] == src;
    while len < |src| && src[len] != PAD
      invariant 0 <= len <= |src| && var s := Scan(src[len..], url); Scan(src, url) == (s.0, len + s.1)
    {
      assert src[len..][1..] == src[len + 1..];
      if src[len] as int >= 128 { return OffTable, len; }
      if Entry(src[len], url) >= 64 { return Refused, len; }
      len := len + 1;
    }
    r := Bytes([]);
  }

  /** Four characters become three bytes; what is left becomes one or two, or none. */
  method DecodeInternal(src: string, url: bool) returns (r: Decoded)
    ensures r == Decode(src, url)
  {
    hide Trio, Entry;
    var len;
    r, len := ScanText(src, url);
    if !r.Bytes? { return; }
    if len % 4 == 1 { return Refused; }
    var v := Values(src[..len], url);
    hide Scan, Values;
    var dst: seq<Byte> := [];
    var at := 0;
    assert v[0..] == v;
    while len - at > 3
      invariant 0 <= at <= len && dst + Octets(v[at..]) == Octets(v)
    {
      OctetsDone(dst, v[at..]);
      dst := dst + Trio(v[at], v[at + 1], v[at + 2], v[at + 3]);
      assert v[at..][4..] == v[at + 4..];
      at := at + 4;
    }
    var last := DecodeRest(v[at..]);
    r := Bytes(dst + last);
  }

  method DecodeRest(v: seq<Sextet>) returns (dst: seq<Byte>)
    requires |v| <= 3
    ensures dst == Octets(v)
  {
    dst := [];
    if |v| > 1 { dst := [Byte1(v[0], v[1])]; }
    if |v| > 2 { dst := dst + [Byte2(v[1], v[2])]; }
  }

  lemma OctetsDone(done: seq<Byte>, v: seq<Sextet>)
    requires |v| >= 4
    ensures done + Octets(v) == (done + Trio(v[0], v[1], v[2], v[3])) + Octets(v[4..])
  {
    hide Trio;
    var t, rest := Trio(v[0], v[1], v[2], v[3]), Octets(v[4..]);
    assert done + (t + rest) == (done + t) + rest;
  }

  // Encoding and decoding

  lemma SextetsStep(a: Byte, b: Byte, c: Byte, rest: seq<Byte>)
    ensures Sextets([a, b, c] + rest) == Quad(a, b, c) + Sextets(rest)
  {
    hide Quad;
    assert ([a, b, c] + rest)[3..] == rest;
  }

  lemma OctetsStep(v: seq<Sextet>, rest: seq<Sextet>)
    requires |v| == 4
    ensures Octets(v + rest) == Trio(v[0], v[1], v[2], v[3]) + Octets(rest)
  {
    hide Trio;
    assert (v + rest)[4..] == rest;
  }

  lemma {:induction false} OctetsOfSextets(s: seq<Byte>)
    ensures Octets(Sextets(s)) == s && (|Sextets(s)| + |Padding(|s|)|) % 4 == 0 && |Sextets(s)| % 4 != 1
    decreases |s|
  {
    hide Sextets, Octets, Quad, Trio;
    if |s| >= 3 {
      var a, b, c, rest := s[0], s[1], s[2], s[3..];
      OctetsOfSextets(rest);
      assert s == [a, b, c] + rest;
      SextetsStep(a, b, c, rest);
      OctetsStep(Quad(a, b, c), Sextets(rest));
      TrioOfQuad(a, b, c);
      assert |rest| % 3 == |s| % 3;
    } else if |s| == 2 {
      assert s == [s[0], s[1]];
      TwoBack(s[0], s[1]);
    } else if |s| == 1 {
      assert s == [s[0]];
      OneBack(s[0]);
    } else {
      NoBytes();
    }
  }

  lemma NoBytes()
    ensures Sextets([]) == [] && Octets([]) == []
  {
  }

  lemma TwoBack(a: Byte, b: Byte)
    ensures Octets(Sextets([a, b])) == [a, b] && |Sextets([a, b])| == 3
  {
    BytesBack(a, b, 0);
    hide Six1, Six2, Six3, Byte1, Byte2;
    assert Sextets([a, b]) == [Six1(a), Six2(a, b), Six3(b, 0)];
  }

  lemma OneBack(a: Byte)
    ensures Octets(Sextets([a])) == [a] && |Sextets([a])| == 2
  {
    OneByte(a);
    OneOctet(Six1(a), Six2(a, 0));
    hide Sextets, Octets, Six1, Six2, Byte1;
    BytesBack(a, 0, 0);
  }

  lemma OneByte(a: Byte)
    ensures Sextets([a]) == [Six1(a), Six2(a, 0)]
  {
    hide Six1, Six2;
  }

  lemma OneOctet(w: Sextet, x: Sextet)
    ensures Octets([w, x]) == [Byte1(w, x)]
  {
    hide Byte1;
  }

  lemma DigitsValues(v: seq<Sextet>, url: bool)
    ensures Legal(Digits(v, url), url) && Values(Digits(v, url), url) == v
    ensures forall i :: 0 <= i < |v| ==> Digits(v, url)[i] != PAD && Digits(v, url)[i] as int < 128
  {
  }

  lemma ValuesDigits(u: string, url: bool)
    requires Legal(u, url)
    ensures Digits(Values(u, url), url) == u
  {
  }

  lemma {:induction false} ScanWith(t: string, p: string, url: bool)
    requires Legal(t, url) && (forall i :: 0 <= i < |t| ==> t[i] != PAD && t[i] as int < 128)
    requires p == "" || p[0] == PAD
    ensures Scan(t + p, url) == (Bytes([]), |t|)
  {
    if t == [] {
      assert t + p == p;
    } else {
      assert (t + p)[1..] == t[1..] + p;
      ScanWith(t[1..], p, url);
    }
  }

  /** Decoding undoes encoding, for all bytes; padded text comes in groups of four. */
  lemma RoundTrip(s: seq<Byte>, url: bool, pad: bool)
    ensures Decode(Encode(s, url, pad), url) == Bytes(s)
    ensures pad ==> |Encode(s, url, pad)| % 4 == 0
  {
    var t, p := Digits(Sextets(s), url), if pad then Padding(|s|) else "";
    DigitsValues(Sextets(s), url);
    OctetsOfSextets(s);
    ScanWith(t, p, url);
    hide Digits, Sextets, Octets, Values, Scan;
    assert (t + p)[..|t|] == t;
  }

  /** The bits that decoding drops are zero. */
  predicate NothingDropped(v: seq<Sextet>) {
    (|v| % 4 == 2 ==> v[|v| - 1] % 16 == 0) && (|v| % 4 == 3 ==> v[|v| - 1] % 4 == 0)
  }

  lemma {:induction false} SextetsOfOctets(v: seq<Sextet>)
    requires |v| % 4 != 1
    ensures Sextets(Octets(v)) == v <==> NothingDropped(v)
    decreases |v|
  {
    hide Sextets, Octets, NothingDropped;
    if |v| >= 4 {
      MoreDropped(v);
      SextetsOfOctets(v[4..]);
      MoreSextets(v);
    } else {
      LastDropped(v);
    }
  }

  lemma MoreDropped(v: seq<Sextet>)
    requires |v| >= 4
    ensures |v[4..]| % 4 == |v| % 4 && (NothingDropped(v) <==> NothingDropped(v[4..]))
  {
    assert |v| > 4 ==> v[4..][|v| - 5] == v[|v| - 1];
  }

  lemma MoreSextets(v: seq<Sextet>)
    requires |v| >= 4
    ensures Sextets(Octets(v)) == v <==> Sextets(Octets(v[4..])) == v[4..]
  {
    hide *;
    var rest := v[4..];
    assert v == [v[0], v[1], v[2], v[3]] + rest;
    FirstSextets(v[0], v[1], v[2], v[3], rest);
    Cancel([v[0], v[1], v[2], v[3]], Sextets(Octets(rest)), rest);
  }

  lemma Cancel(first: seq<Sextet>, a: seq<Sextet>, b: seq<Sextet>)
    ensures first + a == first + b <==> a == b
  {
    assert (first + a)[|first|..] == a && (first + b)[|first|..] == b;
  }

  lemma FirstSextets(w: Sextet, x: Sextet, y: Sextet, z: Sextet, rest: seq<Sextet>)
    ensures Sextets(Octets([w, x, y, z] + rest)) == [w, x, y, z] + Sextets(Octets(rest))
  {
    hide *;
    OctetsStep([w, x, y, z], rest);
    SixesBack(w, x, y, z);
    QuadOf(Byte1(w, x), Byte2(x, y), Byte3(y, z));
    TrioOf(w, x, y, z);
    SextetsStep(Byte1(w, x), Byte2(x, y), Byte3(y, z), Octets(rest));
  }

  lemma QuadOf(a: Byte, b: Byte, c: Byte)
    ensures Quad(a, b, c) == [Six1(a), Six2(a, b), Six3(b, c), Six4(c)]
  {
    hide Six1, Six2, Six3, Six4;
  }

  lemma TrioOf(w: Sextet, x: Sextet, y: Sextet, z: Sextet)
    ensures Trio(w, x, y, z) == [Byte1(w, x), Byte2(x, y), Byte3(y, z)]
  {
    hide Byte1, Byte2, Byte3;
  }

  lemma LastDropped(v: seq<Sextet>)
    requires |v| <= 3 && |v| != 1
    ensures Sextets(Octets(v)) == v <==> NothingDropped(v)
  {
    if |v| == 3 {
      LastThree(v[0], v[1], v[2]);
    } else if |v| == 2 {
      LastTwo(v[0], v[1]);
    }
  }

  lemma LastThree(w: Sextet, x: Sextet, y: Sextet)
    ensures Sextets(Octets([w, x, y])) == [w, x, y / 4 * 4]
    ensures Sextets(Octets([w, x, y])) == [w, x, y] <==> y % 4 == 0
  {
    SixesBack(w, x, y, 0);
    OutByte2(x, y);
    ModUnique(Byte2(x, y), 16, x % 16, y / 4);
    hide Six1, Six2, Byte1, Byte2;
    assert Sextets(Octets([w, x, y])) == [w, x, y / 4 * 4];
  }

  lemma LastTwo(w: Sextet, x: Sextet)
    ensures Sextets(Octets([w, x])) == [w, x / 16 * 16]
    ensures Sextets(Octets([w, x])) == [w, x] <==> x % 16 == 0
  {
    SixesBack(w, x, 0, 0);
    OutByte1(w, x);
    ModUnique(Byte1(w, x), 4, w, x / 16);
    hide Six1, Byte1;
    assert Sextets(Octets([w, x])) == [w, x / 16 * 16];
  }

  /** Encoding undoes decoding exactly if decoding dropped no bits. */
  lemma EncodeDecoded(u: string, url: bool)
    requires Legal(u, url) && |u| % 4 != 1
    ensures Encode(Octets(Values(u, url)), url, false) == u <==> NothingDropped(Values(u, url))
  {
    var v := Values(u, url);
    SextetsOfOctets(v);
    ValuesDigits(u, url);
    var w := Sextets(Octets(v));
    DigitsValues(w, url);
    assert Encode(Octets(v), url, false) == Digits(w, url);
  }

  /** A character from 128 up, before anything that would end the scan. */
  predicate OffAt(t: string, url: bool, i: nat) {
    && i < |t| && t[i] as int >= 128
    && forall j :: 0 <= j < i ==> t[j] != PAD && t[j] as int < 128 && Entry(t[j], url) < 64
  }

  /** When decoding reads outside the table. */
  lemma {:induction false} OffTableExactly(t: string, url: bool)
    ensures Decode(t, url) == OffTable <==> exists i: nat :: OffAt(t, url, i)
    decreases |t|
  {
    if t != [] {
      var rest := t[1..];
      if t[0] as int >= 128 {
        assert OffAt(t, url, 0);
      } else if t[0] != PAD && Entry(t[0], url) < 64 {
        OffTableExactly(rest, url);
        OffLater(t, url);
      }
    }
  }

  lemma OffLater(t: string, url: bool)
    requires t != [] && t[0] != PAD && t[0] as int < 128 && Entry(t[0], url) < 64
    ensures (exists i: nat :: OffAt(t, url, i)) <==> exists i: nat :: OffAt(t[1..], url, i)
  {
    hide Entry;
    var rest := t[1..];
    if i: nat :| OffAt(t, url, i) {
      assert forall j :: 0 <= j < i - 1 ==> t[1..][j] == t[j + 1];
      assert OffAt(t[1..], url, i - 1);
    }
    if i: nat :| OffAt(t[1..], url, i) {
      assert forall j :: 1 <= j <= i + 1 ==> t[j] == t[1..][j - 1];
      assert OffAt(t, url, i + 1);
    }
  }

  /** A character from 128 up: what would be read for it is not in the table. */
  lemma HighByteOffTable()
    ensures Decode([200 as char], false) == OffTable
  {
  }
}
