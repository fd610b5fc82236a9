/** Percent-encoding by table, and the state machine that undoes it. */
module UriCodec {
  import opened Words

  const PERCENT: Byte := 37
  const QUESTION: Byte := 63

  /** The four kinds of escape; the bits of eight words say which bytes are escaped. */
  datatype Kind = Uri | Args | Component | Html {
    function Table(): (t: seq<nat>)
      ensures |t| == 8
    {
      var low := match this
        case Uri => [0x80000029, 0x00000000, 0x80000000]
        case Args => [0x88000869, 0x00000000, 0x80000000]
        case Component => [0xfc009fff, 0x78000001, 0xb8000001]
        case Html => [0x000000ad, 0x00000000, 0x80000000];
      [0xffffffff] + low + [0xffffffff, 0xffffffff, 0xffffffff, 0xffffffff]
    }
  }

  predicate Escaped(c: Byte, kind: Kind) {
    Bit(kind.Table()[c / 32], c % 32)
  }

  function HexDigit(v: nat): Byte
    requires v < 16
  {
    if v < 10 then 48 + v else 55 + v
  }

  function EscapeByte(c: Byte, kind: Kind): seq<Byte> {
    if Escaped(c, kind) then [PERCENT, HexDigit(c / 16), HexDigit(c % 16)] else [c]
  }

  function Escape(s: seq<Byte>, kind: Kind): seq<Byte> {
    if s == [] then [] else EscapeByte(s[0], kind) + Escape(s[1..], kind)
  }

  function Count(s: seq<Byte>, kind: Kind): nat {
    if s == [] then 0 else (if Escaped(s[0], kind) then 1 else 0) + Count(s[1..], kind)
  }

  /** The first pass counts the bytes to escape; the text grows by two for each. */
  lemma {:induction false} EscapeLength(s: seq<Byte>, kind: Kind)
    ensures |Escape(s, kind)| == |s| + 2 * Count(s, kind)
  {
    if s != [] { EscapeLength(s[1..], kind); }
  }

  method CountEscapes(src: seq<Byte>, kind: Kind) returns (n: nat)
    ensures |Escape(src, kind)| == |src| + 2 * n
  {
    n := 0;
    var i := 0;
    assert src[0..] == src;
    while i < |src|
      invariant 0 <= i <= |src| && n + Count(src[i..], kind) == Count(src, kind)
    {
      assert src[i..][1..] == src[i + 1..];
      if Escaped(src[i], kind) { n := n + 1; }
      i := i + 1;
    }
    EscapeLength(src, kind);
  }

  method EscapeUri(dst: array<Byte>, src: seq<Byte>, kind: Kind) returns (end: nat)
    requires |src| + 2 * Count(src, kind) <= dst.Length
    modifies dst
    ensures end <= dst.Length && dst[..end] == Escape(src, kind)
  {
    end := 0;
    var i := 0;
    assert src[0..] == src;
    EscapeLength(src, kind);
    while i < |src|
      invariant i <= |src| && end <= dst.Length && EscapedUpTo(dst[..end], src, i, kind)
    {
      EscapedNext(dst[..end], src, i, kind);
      end := PutEscaped(dst, end, src[i], kind);
      i := i + 1;
    }
    assert src[i..] == [] && dst[..end] + [] == dst[..end];
  }

  method PutEscaped(dst: array<Byte>, at: nat, c: Byte, kind: Kind) returns (end: nat)
    requires at + |EscapeByte(c, kind)| <= dst.Length
    modifies dst
    ensures end == at + |EscapeByte(c, kind)| && dst[..end] == old(dst[..at]) + EscapeByte(c, kind)
  {
    if Escaped(c, kind) {
      dst[at] := PERCENT;
      dst[at + 1] := HexDigit(c / 16);
      dst[at + 2] := HexDigit(c % 16);
      end := at + 3;
    } else {
      dst[at] := c;
      end := at + 1;
    }
  }

  /** The part of the source before position `i` is escaped. */
  ghost predicate EscapedUpTo(done: seq<Byte>, src: seq<Byte>, i: nat, kind: Kind) {
    i <= |src| && done + Escape(src[i..], kind) == Escape(src, kind)
  }

  lemma EscapedNext(done: seq<Byte>, src: seq<Byte>, i: nat, kind: Kind)
    requires i < |src| && EscapedUpTo(done, src, i, kind)
    ensures EscapedUpTo(done + EscapeByte(src[i], kind), src, i + 1, kind)
    ensures |done| + |EscapeByte(src[i], kind)| <= |Escape(src, kind)|
  {
    assert src[i..][1..] == src[i + 1..];
    assert done + (EscapeByte(src[i], kind) + Escape(src[i + 1..], kind))
        == (done + EscapeByte(src[i], kind)) + Escape(src[i + 1..], kind);
  }

  // Undoing it

  /** The two flags of an unescape: stopping at a question mark, and leaving most bytes escaped. */
  datatype Flags = Flags(uri: bool, redirect: bool) {
    predicate Stops() {
      uri || redirect
    }
  }

  /** After a percent sign, and after its first digit. */
  datatype Mode = Usual | Quoted | Second(first: Byte)

  predicate Decimal(c: Byte) {
    48 <= c <= 57
  }

  /** The code maps capitals to small letters first. */
  predicate HexLetter(c: Byte) {
    65 <= c <= 70 || 97 <= c <= 102
  }

  function HexValue(c: Byte): (v: nat)
    requires Decimal(c) || HexLetter(c)
    ensures v < 16
  {
    if Decimal(c) then c - 48 else if c <= 70 then c - 55 else c - 87
  }

  /** What one byte leads to: more output, and the next mode, or the end. */
  datatype Outcome = On(out: seq<Byte>, mode: Mode) | Stop(out: seq<Byte>)

  function Next(m: Mode, c: Byte, f: Flags): Outcome
    requires Fits(m)
  {
    match m
    case Usual =>
      if c == QUESTION && f.Stops() then Stop([c])
      else if c == PERCENT then On([], Quoted)
      else On([c], Usual)
    case Quoted =>
      if Decimal(c) || HexLetter(c) then On([], Second(c)) else On([c], Usual)
    case Second(first) =>
      if Decimal(c) then
        var ch := HexValue(first) * 16 + HexValue(c);
        On(if f.redirect && !(PERCENT < ch < 127) then [PERCENT, first, c] else [ch], Usual)
      else if HexLetter(c) then
        var ch := HexValue(first) * 16 + HexValue(c);
        if ch == QUESTION && f.Stops() then Stop([ch])
        else On(if !f.uri && f.redirect && !(PERCENT < ch < 127) then [PERCENT, first, c] else [ch], Usual)
      else On([], Usual)
  }

  /** The output, and how much of the source was used. */
  function Unescape(m: Mode, s: seq<Byte>, f: Flags): (r: (seq<Byte>, nat))
    requires Fits(m)
    ensures r.1 <= |s|
    decreases |s|
  {
    if s == [] then ([], 0) else
      match Next(m, s[0], f)
      case Stop(out) => (out, 1)
      case On(out, mode) =>
        var r := Unescape(mode, s[1..], f);
        (out + r.0, r.1 + 1)
  }

  method UnescapeUri(dst: array<Byte>, src: seq<Byte>, f: Flags) returns (end: nat, used: nat)
    requires |src| <= dst.Length
    modifies dst
    ensures end <= dst.Length && used <= |src| && (dst[..end], used) == Unescape(Usual, src, f)
  {
    end, used := 0, 0;
    var mode := Usual;
    assert src[0..] == src && dst[..0] == [];
    assert [] + Unescape(Usual, src, f).0 == Unescape(Usual, src, f).0;
    while used < |src|
      invariant end + Held(mode) <= used <= |src| && Fits(mode) && Underway(dst[..end], src, used, mode, f)
    {
      Onward(dst[..end], src, used, mode, f);
      var o := Next(mode, src[used], f);
      end := Put(dst, end, o.out);
      used := used + 1;
      if o.Stop? { return; }
      mode := o.mode;
    }
    assert src[used..] == [] && dst[..end] + [] == dst[..end];
  }

  predicate Fits(m: Mode) {
    m.Second? ==> Decimal(m.first) || HexLetter(m.first)
  }

  /** The output so far, and what the rest leads to, are what the whole leads to. */
  ghost predicate Underway(done: seq<Byte>, src: seq<Byte>, used: nat, m: Mode, f: Flags)
    requires Fits(m)
  {
    used <= |src| && (var r := Unescape(m, src[used..], f); (done + r.0, used + r.1) == Unescape(Usual, src, f))
  }

  lemma Onward(done: seq<Byte>, src: seq<Byte>, used: nat, m: Mode, f: Flags)
    requires Fits(m) && used < |src| && Underway(done, src, used, m, f)
    ensures var o := Next(m, src[used], f);
      && |o.out| <= 1 + Held(m)
      && (o.On? ==>
          Fits(o.mode) && |o.out| + Held(o.mode) <= 1 + Held(m) && Underway(done + o.out, src, used + 1, o.mode, f))
      && (o.Stop? ==> (done + o.out, used + 1) == Unescape(Usual, src, f))
  {
    assert src[used..][1..] == src[used + 1..];
    var o := Next(m, src[used], f);
    if o.On? {
      var r := Unescape(o.mode, src[used + 1..], f);
      assert done + (o.out + r.0) == (done + o.out) + r.0;
    }
  }

  /** How many bytes of the source have been read but not yet answered. */
  function Held(m: Mode): nat {
    match m case Usual => 0 case Quoted => 1 case Second(_) => 2
  }

  method Put(dst: array<Byte>, at: nat, out: seq<Byte>) returns (end: nat)
    requires at + |out| <= dst.Length && |out| <= 3
    modifies dst
    ensures end == at + |out| && dst[..end] == old(dst[..at]) + out
  {
    var k := 0;
    while k < |out|
      invariant k <= |out| && dst[..at + k] == old(dst[..at]) + out[..k]
    {
      dst[at + k] := out[k];
      k := k + 1;
    }
    assert out[..k] == out;
    end := at + |out|;
  }

  // Escaping and unescaping

  /** What unescaping makes of an escaped text: everything up to the first question mark, if that stops it, but
      a redirection leaves the bytes escaped that it does not undo. */
  function Meant(s: seq<Byte>, kind: Kind, f: Flags): seq<Byte> {
    if s == [] then []
    else if s[0] == QUESTION && f.Stops() then [s[0]]
    else (if Kept(s[0], kind, f) then EscapeByte(s[0], kind) else [s[0]]) + Meant(s[1..], kind, f)
  }

  /** The byte stays escaped: its second digit is a letter, which the first flag undoes, or it is not. */
  predicate Kept(c: Byte, kind: Kind, f: Flags) {
    Escaped(c, kind) && f.redirect && !(PERCENT < c < 127) && !(f.uri && c % 16 >= 10)
  }

  lemma PercentEscaped(kind: Kind)
    ensures Escaped(PERCENT, kind)
  {
    assert PERCENT / 32 == 1 && PERCENT % 32 == 5;
    match kind
    case Uri => BitFive(0x80000029);
    case Args => BitFive(0x88000869);
    case Component => BitFive(0xfc009fff);
    case Html => BitFive(0x000000ad);
  }

  lemma BitFive(w: nat)
    ensures Bit(w, 5) <==> w / 2 / 2 / 2 / 2 / 2 % 2 == 1
  {
    assert Bit(w, 5) == Bit(w / 2, 4);
    assert Bit(w / 2, 4) == Bit(w / 2 / 2, 3);
    assert Bit(w / 2 / 2, 3) == Bit(w / 2 / 2 / 2, 2);
    assert Bit(w / 2 / 2 / 2, 2) == Bit(w / 2 / 2 / 2 / 2, 1);
    assert Bit(w / 2 / 2 / 2 / 2, 1) == Bit(w / 2 / 2 / 2 / 2 / 2, 0);
  }

  lemma HexBack(c: Byte)
    ensures var a, b := HexDigit(c / 16), HexDigit(c % 16);
      && (Decimal(a) || HexLetter(a)) && (Decimal(b) <==> c % 16 < 10) && (HexLetter(b) <==> c % 16 >= 10)
      && HexValue(a) * 16 + HexValue(b) == c
  {
  }

  /** One escaped byte, three steps of the machine. */
  lemma UnescapeOne(c: Byte, kind: Kind, rest: seq<Byte>, f: Flags)
    requires Escaped(c, kind)
    ensures Unescape(Usual, EscapeByte(c, kind) + rest, f) ==
      if c == QUESTION && f.Stops() then ([c], 3)
      else
        var r := Unescape(Usual, rest, f);
        ((if Kept(c, kind, f) then EscapeByte(c, kind) else [c]) + r.0, r.1 + 3)
  {
    var a, b := HexDigit(c / 16), HexDigit(c % 16);
    var s := EscapeByte(c, kind) + rest;
    assert s[0] == PERCENT && s[1..] == [a, b] + rest && s[1..][1..] == [b] + rest && s[1..][1..][1..] == rest;
    HexBack(c);
    hide Escaped, HexDigit;
    Quote(s, f);
    FirstDigit(s[1..], f);
    SecondDigit(c, kind, s[1..][1..], f);
  }

  lemma FirstDigit(s: seq<Byte>, f: Flags)
    requires s != [] && (Decimal(s[0]) || HexLetter(s[0]))
    ensures var r := Unescape(Second(s[0]), s[1..], f); Unescape(Quoted, s, f) == (r.0, r.1 + 1)
  {
    var r := Unescape(Second(s[0]), s[1..], f);
    assert [] + r.0 == r.0;
  }

  lemma SecondDigit(c: Byte, kind: Kind, s: seq<Byte>, f: Flags)
    requires Escaped(c, kind) && s != [] && s[0] == HexDigit(c % 16)
    ensures Decimal(HexDigit(c / 16)) || HexLetter(HexDigit(c / 16))
    ensures Unescape(Second(HexDigit(c / 16)), s, f) ==
      if c == QUESTION && f.Stops() then ([c], 1)
      else
        var r := Unescape(Usual, s[1..], f);
        ((if Kept(c, kind, f) then EscapeByte(c, kind) else [c]) + r.0, r.1 + 1)
  {
    HexBack(c);
  }

  lemma Quote(s: seq<Byte>, f: Flags)
    requires s != [] && s[0] == PERCENT
    ensures var r := Unescape(Quoted, s[1..], f); Unescape(Usual, s, f) == (r.0, r.1 + 1)
  {
    var r := Unescape(Quoted, s[1..], f);
    assert Next(Usual, PERCENT, f) == On([], Quoted);
    assert [] + r.0 == r.0;
  }

  /** A byte that is not escaped, one step. */
  lemma UnescapePlain(c: Byte, kind: Kind, rest: seq<Byte>, f: Flags)
    requires !Escaped(c, kind)
    ensures Unescape(Usual, [c] + rest, f) ==
      if c == QUESTION && f.Stops() then ([c], 1)
      else
        var r := Unescape(Usual, rest, f);
        ([c] + r.0, r.1 + 1)
  {
    PercentEscaped(kind);
    assert ([c] + rest)[1..] == rest;
  }

  /** For every text and every kind of escape, unescaping gives back what is meant; without flags, the text. */
  lemma {:induction false} RoundTrip(s: seq<Byte>, kind: Kind, f: Flags)
    ensures Unescape(Usual, Escape(s, kind), f).0 == Meant(s, kind, f)
    ensures f == Flags(false, false) ==> Unescape(Usual, Escape(s, kind), f) == (s, |Escape(s, kind)|)
  {
    if s != [] {
      RoundTrip(s[1..], kind, f);
      RoundTripFirst(s[0], s[1..], kind, f);
      assert [s[0]] + s[1..] == s;
    }
  }

  lemma RoundTripFirst(c: Byte, s: seq<Byte>, kind: Kind, f: Flags)
    requires Unescape(Usual, Escape(s, kind), f).0 == Meant(s, kind, f)
    requires f == Flags(false, false) ==> Unescape(Usual, Escape(s, kind), f) == (s, |Escape(s, kind)|)
    ensures Unescape(Usual, Escape([c] + s, kind), f).0 == Meant([c] + s, kind, f)
    ensures f == Flags(false, false) ==>
      Unescape(Usual, Escape([c] + s, kind), f) == ([c] + s, |Escape([c] + s, kind)|)
  {
    assert ([c] + s)[1..] == s;
    hide Escaped, HexDigit, Unescape;
    if Escaped(c, kind) {
      UnescapeOne(c, kind, Escape(s, kind), f);
    } else {
      UnescapePlain(c, kind, Escape(s, kind), f);
    }
  }
}
