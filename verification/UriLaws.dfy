/** What percent-encoding writes and reads, with the characters written out. */
module UriLaws {
  import opened Words
  import opened UriCodec

  const CAPITAL_HEX := "0123456789ABCDEF"
  const SMALL_HEX := "0123456789abcdef"

  /** The byte is the hexadecimal digit for `x`, small or capital. */
  predicate HexFor(a: Byte, x: nat) {
    x < 16 && (a as char == CAPITAL_HEX[x] || a as char == SMALL_HEX[x])
  }

  // Escaping

  /** The bytes that a kind of escape replaces. */
  predicate Special(c: Byte, kind: Kind) {
    match kind
    case Uri => c < 32 || c >= 127 || c as char in " #%?"
    case Args => c < 32 || c >= 127 || c as char in " #%&+;?"
    case Html => c < 32 || c >= 127 || c as char in " \"#%'"
    case Component =>
      !('A' <= c as char <= 'Z' || 'a' <= c as char <= 'z' || '0' <= c as char <= '9' || c as char in "-._~")
  }

  /** Adding a power of two above all bits sets one bit. */
  lemma {:induction false} Above(w: nat, i: nat, j: nat)
    requires w < Pow2(i)
    ensures Bit(w + Pow2(i), j) <==> j == i || Bit(w, j)
    ensures w + Pow2(i) < Pow2(i + 1)
  {
    if i == 0 {
      if j > 0 { ZeroBits(j - 1); }
    } else {
      assert (w + Pow2(i)) / 2 == w / 2 + Pow2(i - 1);
      Above(w / 2, i - 1, if j == 0 then 0 else j - 1);
    }
  }

  lemma Powers()
    ensures Pow2(0) == 1 && Pow2(2) == 4 && Pow2(3) == 8 && Pow2(5) == 32 && Pow2(6) == 64 && Pow2(7) == 128
    ensures Pow2(11) == 0x800 && Pow2(13) == 0x2000 && Pow2(15) == 0x8000 && Pow2(26) == 0x400_0000
    ensures Pow2(27) == 0x800_0000 && Pow2(28) == 0x1000_0000 && Pow2(29) == 0x2000_0000
    ensures Pow2(30) == 0x4000_0000 && Pow2(31) == 0x8000_0000 && Pow2(32) == 0x1_0000_0000
  {
    Pow2Values();
    assert Pow2(13) == 2 * Pow2(12) && Pow2(15) * 2 == Pow2(16);
    Pow2Add(13, 13);
    assert Pow2(27) == 2 * Pow2(26) && Pow2(28) == 2 * Pow2(27) && Pow2(29) == 2 * Pow2(28);
    assert Pow2(30) == 2 * Pow2(29) && Pow2(31) == 2 * Pow2(30);
  }

  lemma UriWord(j: nat)
    ensures Bit(0x8000_0029, j) <==> j == 0 || j == 3 || j == 5 || j == 31
  {
    Powers();
    hide Pow2, Bit;
    ZeroBits(j);
    Above(0, 0, j);
    Above(0x1, 3, j);
    Above(0x9, 5, j);
    Above(0x29, 31, j);
  }

  lemma ArgsWord(j: nat)
    ensures Bit(0x8800_0869, j) <==> j == 0 || j == 3 || j == 5 || j == 6 || j == 11 || j == 27 || j == 31
  {
    Powers();
    hide Pow2, Bit;
    ZeroBits(j);
    Above(0, 0, j);
    Above(0x1, 3, j);
    Above(0x9, 5, j);
    Above(0x29, 6, j);
    Above(0x69, 11, j);
    Above(0x869, 27, j);
    Above(0x800_0869, 31, j);
  }

  lemma HtmlWord(j: nat)
    ensures Bit(0xad, j) <==> j == 0 || j == 2 || j == 3 || j == 5 || j == 7
  {
    Powers();
    hide Pow2, Bit;
    ZeroBits(j);
    Above(0, 0, j);
    Above(0x1, 2, j);
    Above(0x5, 3, j);
    Above(0xd, 5, j);
    Above(0x2d, 7, j);
  }

  lemma ComponentFigures(j: nat)
    requires j < 32
    ensures Bit(0xfc00_9fff, j) <==> j <= 12 || j == 15 || j >= 26
  {
    Powers();
    hide Pow2, Bit;
    LowMask(13, j);
    Above(0x1fff, 15, j);
    Above(0x9fff, 26, j);
    Above(0x400_9fff, 27, j);
    Above(0xc00_9fff, 28, j);
    Above(0x1c00_9fff, 29, j);
    Above(0x3c00_9fff, 30, j);
    Above(0x7c00_9fff, 31, j);
  }

  lemma ComponentCapitals(j: nat)
    requires j < 32
    ensures Bit(0x7800_0001, j) <==> j == 0 || 27 <= j <= 30
  {
    Powers();
    hide Pow2, Bit;
    ZeroBits(j);
    Above(0, 0, j);
    Above(0x1, 27, j);
    Above(0x800_0001, 28, j);
    Above(0x1800_0001, 29, j);
    Above(0x3800_0001, 30, j);
  }

  lemma ComponentSmalls(j: nat)
    requires j < 32
    ensures Bit(0xb800_0001, j) <==> j == 0 || 27 <= j <= 29 || j == 31
  {
    Powers();
    hide Pow2, Bit;
    ZeroBits(j);
    Above(0, 0, j);
    Above(0x1, 27, j);
    Above(0x800_0001, 28, j);
    Above(0x1800_0001, 29, j);
    Above(0x3800_0001, 31, j);
  }

  lemma PlainWord(j: nat)
    requires j < 32
    ensures Bit(0xffff_ffff, j) && (Bit(0x8000_0000, j) <==> j == 31) && !Bit(0, j)
  {
    Powers();
    hide Pow2, Bit;
    LowMask(32, j);
    ZeroBits(j);
    Above(0, 31, j);
  }

  lemma UriBytes(c: Byte)
    ensures Escaped(c, Uri) <==> Special(c, Uri)
  {
    hide Bit;
    PlainWord(c % 32);
    UriWord(c % 32);
  }

  lemma ArgsBytes(c: Byte)
    ensures Escaped(c, Args) <==> Special(c, Args)
  {
    hide Bit;
    PlainWord(c % 32);
    ArgsWord(c % 32);
  }

  lemma HtmlBytes(c: Byte)
    ensures Escaped(c, Html) <==> Special(c, Html)
  {
    hide Bit;
    PlainWord(c % 32);
    HtmlWord(c % 32);
  }

  lemma ComponentBytes(c: Byte)
    ensures Escaped(c, Component) <==> Special(c, Component)
  {
    hide Bit;
    PlainWord(c % 32);
    ComponentFigures(c % 32);
    ComponentCapitals(c % 32);
    ComponentSmalls(c % 32);
  }

  /** The tables: the bits of the words say exactly which bytes are special. */
  lemma EscapedBytes(c: Byte, kind: Kind)
    ensures Escaped(c, kind) <==> Special(c, kind)
  {
    hide Escaped, Special;
    match kind
    case Uri => UriBytes(c);
    case Args => ArgsBytes(c);
    case Component => ComponentBytes(c);
    case Html => HtmlBytes(c);
  }

  /** What escaping writes, byte by byte: a special byte becomes a percent sign and its two digits in capitals. */
  lemma EscapedText(c: Byte, s: seq<Byte>, kind: Kind)
    ensures Escape([], kind) == []
    ensures Escape([c] + s, kind) ==
      (if Special(c, kind) then [37, CAPITAL_HEX[c / 16] as Byte, CAPITAL_HEX[c % 16] as Byte] else [c])
        + Escape(s, kind)
  {
    EscapedBytes(c, kind);
    DigitCharacter(c / 16);
    DigitCharacter(c % 16);
    hide Escaped, HexDigit, Special;
    assert ([c] + s)[1..] == s;
  }

  lemma DigitCharacter(v: nat)
    requires v < 16
    ensures CAPITAL_HEX[v] as int == HexDigit(v)
  {
  }

  // Unescaping

  lemma DigitValue(a: Byte, x: nat)
    requires HexFor(a, x)
    ensures (Decimal(a) || HexLetter(a)) && HexValue(a) == x && (Decimal(a) <==> x < 10)
  {
    if x < 10 { assert CAPITAL_HEX[x] as int == 48 + x == SMALL_HEX[x] as int; }
  }

  lemma NoDigit(a: Byte)
    requires forall x: nat :: !HexFor(a, x)
    ensures !Decimal(a) && !HexLetter(a)
  {
    if Decimal(a) {
      assert HexFor(a, a - 48);
    } else if HexLetter(a) {
      assert HexFor(a, if a < 97 then a - 55 else a - 87);
    }
  }

  lemma SecondRead(a: Byte, x: nat, b: Byte, y: nat, rest: seq<Byte>, f: Flags)
    requires HexFor(a, x) && HexFor(b, y)
    ensures (Decimal(a) || HexLetter(a)) && (Decimal(b) || HexLetter(b))
    ensures var r, c := Unescape(Usual, rest, f), 16 * x + y;
      Unescape(Second(a), [b] + rest, f) ==
        if c == 63 && (f.uri || f.redirect) then ([63], 1)
        else if f.redirect && (y < 10 || !f.uri) && (c <= 37 || c >= 127) then ([37, a, b] + r.0, r.1 + 1)
        else ([c] + r.0, r.1 + 1)
  {
    DigitValue(a, x);
    DigitValue(b, y);
    hide HexFor, HexValue;
    assert ([b] + rest)[1..] == rest;
  }

  /** Two steps of the machine: a percent sign and a digit. */
  lemma PercentDigit(a: Byte, x: nat, s: seq<Byte>, f: Flags)
    requires HexFor(a, x)
    ensures Decimal(a) || HexLetter(a)
    ensures var r := Unescape(Second(a), s, f); Unescape(Usual, [37, a] + s, f) == (r.0, r.1 + 2)
  {
    DigitValue(a, x);
    hide HexFor, HexValue, Next, Unescape;
    var t := [37, a] + s;
    assert t[1..] == [a] + s && t[1..][1..] == s;
    Quote(t, f);
    FirstDigit(t[1..], f);
  }

  /** A percent sign and two digits, small or capital, are the byte they make. A redirection leaves alone what is not
      between the percent sign and the delete character, but only if the second digit is a figure, or without
      the first flag; with a flag, a question mark ends the text. */
  lemma PairRead(a: Byte, x: nat, b: Byte, y: nat, rest: seq<Byte>, f: Flags)
    requires HexFor(a, x) && HexFor(b, y)
    ensures var r, c := Unescape(Usual, rest, f), 16 * x + y;
      Unescape(Usual, [37, a, b] + rest, f) ==
        if c == 63 && (f.uri || f.redirect) then ([63], 3)
        else if f.redirect && (y < 10 || !f.uri) && (c <= 37 || c >= 127) then ([37, a, b] + r.0, r.1 + 3)
        else ([c] + r.0, r.1 + 3)
  {
    hide HexFor, HexValue, Next, Unescape;
    assert [37, a, b] + rest == [37, a] + ([b] + rest);
    PercentDigit(a, x, [b] + rest, f);
    SecondRead(a, x, b, y, rest, f);
  }

  /** Without flags, that is all. */
  lemma PlainPairRead(a: Byte, x: nat, b: Byte, y: nat, rest: seq<Byte>)
    requires HexFor(a, x) && HexFor(b, y)
    ensures var f := Flags(false, false);
      Unescape(Usual, [37, a, b] + rest, f).0 == [16 * x + y] + Unescape(Usual, rest, f).0
  {
    PairRead(a, x, b, y, rest, Flags(false, false));
  }

  /** A percent sign that no digit follows is dropped, and the byte behind it is kept whatever it is; a percent sign
      and one digit are dropped, and with them the byte behind that. So is either at the end of the text. */
  lemma LoosePercent(a: Byte, x: nat, c: Byte, rest: seq<Byte>, f: Flags)
    requires HexFor(a, x) && forall y: nat :: !HexFor(c, y)
    ensures var r := Unescape(Usual, rest, f);
      && Unescape(Usual, [37, c] + rest, f) == ([c] + r.0, r.1 + 2)
      && Unescape(Usual, [37, a, c] + rest, f) == (r.0, r.1 + 3)
    ensures Unescape(Usual, [37], f) == ([], 1) && Unescape(Usual, [37, a], f) == ([], 2)
  {
    hide HexFor, Next, Unescape;
    var r := Unescape(Usual, rest, f);
    PercentOther(c, rest, f);
    assert [37, a, c] + rest == [37, a] + ([c] + rest) && [37, a] == [37, a] + [];
    PercentDigit(a, x, [c] + rest, f);
    PercentDigit(a, x, [], f);
    SecondOther(a, x, c, rest, f);
    AtEnd(a, x, f);
  }

  lemma PercentOther(c: Byte, rest: seq<Byte>, f: Flags)
    requires forall y: nat :: !HexFor(c, y)
    ensures var r := Unescape(Usual, rest, f); Unescape(Usual, [37, c] + rest, f) == ([c] + r.0, r.1 + 2)
  {
    NoDigit(c);
    hide HexFor;
    var s := [37, c] + rest;
    assert s[1..] == [c] + rest && s[1..][1..] == rest;
    Quote(s, f);
  }

  lemma SecondOther(a: Byte, x: nat, c: Byte, rest: seq<Byte>, f: Flags)
    requires HexFor(a, x) && forall y: nat :: !HexFor(c, y)
    ensures Decimal(a) || HexLetter(a)
    ensures var r := Unescape(Usual, rest, f); Unescape(Second(a), [c] + rest, f) == (r.0, r.1 + 1)
  {
    DigitValue(a, x);
    NoDigit(c);
    hide HexFor;
    var r := Unescape(Usual, rest, f);
    assert ([c] + rest)[1..] == rest && [] + r.0 == r.0;
  }

  lemma AtEnd(a: Byte, x: nat, f: Flags)
    requires HexFor(a, x)
    ensures Decimal(a) || HexLetter(a)
    ensures Unescape(Usual, [37], f) == ([], 1) && Unescape(Second(a), [], f) == ([], 0)
  {
    DigitValue(a, x);
    Quote([37], f);
  }

  /** Any other byte is kept, and a question mark ends the text if there is a flag. */
  lemma PlainRead(c: Byte, rest: seq<Byte>, f: Flags)
    requires c != 37
    ensures Unescape(Usual, [], f) == ([], 0)
    ensures var r := Unescape(Usual, rest, f);
      Unescape(Usual, [c] + rest, f) == if c == 63 && (f.uri || f.redirect) then ([63], 1) else ([c] + r.0, r.1 + 1)
  {
    assert ([c] + rest)[1..] == rest;
  }
}
