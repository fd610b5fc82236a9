/** What escaping and unescaping mean, character by character, with the characters written out. */
module JsonEscapeLaws {
  import opened JsonLexer
  import opened JsonEscape

  const CAPITAL_HEX := "0123456789ABCDEF"
  const SMALL_HEX := "0123456789abcdef"

  predicate HexFor(c: char, x: nat) {
    x < 16 && (c == CAPITAL_HEX[x] || c == SMALL_HEX[x])
  }

  /** Four digits, small or capital, that make the number. */
  predicate FourFor(d: string, u: nat) {
    && |d| == 4
    && HexFor(d[0], u / 4096) && HexFor(d[1], u / 256 % 16) && HexFor(d[2], u / 16 % 16) && HexFor(d[3], u % 16)
  }

  lemma HexIs(c: char, x: nat)
    requires HexFor(c, x)
    ensures Hex(c) && HexValue(c) == x
  {
  }

  lemma UnitIs(d: string, u: nat, t: string, i: nat)
    requires FourFor(d, u) && i + 4 <= |t| && t[i..i + 4] == d
    ensures FourDigits(t, i) && Unit(t, i) == u < 0x10000
  {
    assert t[i] == d[0] && t[i + 1] == d[1] && t[i + 2] == d[2] && t[i + 3] == d[3];
    HexIs(d[0], u / 4096);
    HexIs(d[1], u / 256 % 16);
    HexIs(d[2], u / 16 % 16);
    HexIs(d[3], u % 16);
    hide HexFor, Hex, HexValue;
    FourParts(u);
  }

  lemma FourParts(u: nat)
    ensures u == u / 4096 * 4096 + u / 256 % 16 * 256 + u / 16 % 16 * 16 + u % 16
    ensures u / 4096 < 16 ==> u < 0x10000
  {
    assert u / 256 == u / 16 / 16 && u / 4096 == u / 256 / 16;
    assert u == u / 16 * 16 + u % 16;
    assert u / 16 == u / 256 * 16 + u / 16 % 16;
    assert u / 256 == u / 4096 * 16 + u / 256 % 16;
  }

  lemma First(t: string)
    requires t != [] && Begins(t)
    ensures Unescapable(t) <==> Unescapable(t[Size(t)..])
    ensures Unescapable(t) ==> Unescape(t) == Unescaped(t) + Unescape(t[Size(t)..])
  {
  }

  /** An escaped number that is not a high surrogate is that character. */
  lemma NumberRead(d: string, u: nat, rest: string)
    requires FourFor(d, u) && !(0xD800 <= u <= 0xDBFF) && Unescapable(rest)
    ensures Unescapable("\\u" + d + rest) && u < 0x10000
    ensures Unescape("\\u" + d + rest) == Utf8(u) + Unescape(rest)
  {
    var t := "\\u" + d + rest;
    assert t[0] == '\\' && t[1] == 'u' && t[2..6] == d && t[6..] == rest;
    UnitIs(d, u, t, 2);
    hide FourFor, FourDigits, Unit, Utf8, Unescapable, Unescape;
    First(t);
  }

  /** Two escaped numbers of which the first is a high surrogate are four bytes for the number they make, whatever the
      second is. */
  lemma HighRead(h: string, v: nat, l: string, w: nat, rest: string)
    requires FourFor(h, v) && 0xD800 <= v <= 0xDBFF && FourFor(l, w) && Unescapable(rest)
    ensures w < 0x10000 && Unescapable("\\u" + h + "\\u" + l + rest)
    ensures var n := (v - 0xD800) * 1024 + 0x10000 + w - 0xDC00;
      Unescape("\\u" + h + "\\u" + l + rest) == Four(n) + Unescape(rest)
  {
    var t := "\\u" + h + "\\u" + l + rest;
    assert t[0] == '\\' && t[1] == 'u' && t[2..6] == h && t[6] == '\\' && t[7] == 'u' && t[8..12] == l
        && t[12..] == rest;
    UnitIs(h, v, t, 2);
    UnitIs(l, w, t, 8);
    hide FourFor, FourDigits, Unit, Four, Unescapable, Unescape, Unescaped, Begins, Size;
    PairBegins(t, v, w);
    First(t);
  }

  lemma PairBegins(t: string, v: nat, w: nat)
    requires |t| >= 12 && t[0] == '\\' && t[1] == 'u' && t[6] == '\\' && t[7] == 'u'
    requires FourDigits(t, 2) && FourDigits(t, 8) && Unit(t, 2) == v && Unit(t, 8) == w && 0xD800 <= v <= 0xDBFF
    ensures Begins(t) && Size(t) == 12 && Unescaped(t) == Four((v - 0xD800) * 1024 + 0x10000 + w - 0xDC00)
  {
    hide FourDigits, Unit, Four;
  }

  /** The four bytes mean that number. */
  lemma FourMeans(n: nat)
    requires n < 0x112000
    ensures |Four(n)| == 4 && Utf8Value(Four(n)) == n
    ensures forall i :: 0 < i < 4 ==> 0x80 <= Four(n)[i] as int < 0xC0
  {
  }

  /** An escaped surrogate pair is the character above 0xFFFF whose two halves, less 0x10000, it gives. */
  lemma PairRead(h: string, l: string, u: nat, rest: string)
    requires 0x10000 <= u < 0x110000 && Unescapable(rest)
    requires FourFor(h, 0xD800 + (u - 0x10000) / 1024) && FourFor(l, 0xDC00 + (u - 0x10000) % 1024)
    ensures Unescapable("\\u" + h + "\\u" + l + rest)
    ensures Unescape("\\u" + h + "\\u" + l + rest) == Utf8(u) + Unescape(rest)
  {
    var v, w := 0xD800 + (u - 0x10000) / 1024, 0xDC00 + (u - 0x10000) % 1024;
    hide *;
    PairNumber(u, v, w);
    PairOf(h, v, l, w, u, rest);
  }

  lemma PairOf(h: string, v: nat, l: string, w: nat, u: nat, rest: string)
    requires 0x10000 <= u < 0x110000 && FourFor(h, v) && 0xD800 <= v <= 0xDBFF && FourFor(l, w) && Unescapable(rest)
    requires (v - 0xD800) * 1024 + 0x10000 + w - 0xDC00 == u
    ensures Unescapable("\\u" + h + "\\u" + l + rest)
    ensures Unescape("\\u" + h + "\\u" + l + rest) == Utf8(u) + Unescape(rest)
  {
    assert Utf8(u) == Four(u);
    hide *;
    HighRead(h, v, l, w, rest);
  }

  lemma PairNumber(u: nat, v: nat, w: nat)
    requires 0x10000 <= u < 0x110000 && v == 0xD800 + (u - 0x10000) / 1024 && w == 0xDC00 + (u - 0x10000) % 1024
    ensures 0xD800 <= v <= 0xDBFF && (v - 0xD800) * 1024 + 0x10000 + w - 0xDC00 == u
  {
  }

  /** A high surrogate that no other number follows is dropped, and the character or escape that is there instead. */
  lemma UnpairedRead(h: string, v: nat, c: char, rest: string)
    requires FourFor(h, v) && 0xD800 <= v <= 0xDBFF && Unescapable(rest)
    ensures c != '\\' ==> Unescapable("\\u" + h + [c] + rest) && Unescape("\\u" + h + [c] + rest) == Unescape(rest)
    ensures c != 'u' ==>
      Unescapable("\\u" + h + ['\\', c] + rest) && Unescape("\\u" + h + ['\\', c] + rest) == Unescape(rest)
  {
    hide *;
    if c != '\\' { CharacterDropped(h, v, c, rest); }
    if c != 'u' { EscapeDropped(h, v, c, rest); }
  }

  lemma CharacterDropped(h: string, v: nat, c: char, rest: string)
    requires FourFor(h, v) && 0xD800 <= v <= 0xDBFF && Unescapable(rest) && c != '\\'
    ensures Unescapable("\\u" + h + [c] + rest) && Unescape("\\u" + h + [c] + rest) == Unescape(rest)
  {
    var t := "\\u" + h + [c] + rest;
    assert t[0] == '\\' && t[1] == 'u' && t[2..6] == h && t[6] == c && t[7..] == rest;
    hide *;
    UnitIs(h, v, t, 2);
    FirstDropped(t, v, 7, rest);
  }

  lemma EscapeDropped(h: string, v: nat, c: char, rest: string)
    requires FourFor(h, v) && 0xD800 <= v <= 0xDBFF && Unescapable(rest) && c != 'u'
    ensures Unescapable("\\u" + h + ['\\', c] + rest) && Unescape("\\u" + h + ['\\', c] + rest) == Unescape(rest)
  {
    var t := "\\u" + h + ['\\', c] + rest;
    assert t[0] == '\\' && t[1] == 'u' && t[2..6] == h && t[6] == '\\' && t[7] == c && t[8..] == rest;
    hide *;
    UnitIs(h, v, t, 2);
    FirstDropped(t, v, 8, rest);
  }

  lemma FirstDropped(t: string, v: nat, n: nat, rest: string)
    requires n <= |t| && t[n..] == rest && (n == 7 || n == 8) && t[0] == '\\' && t[1] == 'u' && FourDigits(t, 2)
    requires Unit(t, 2) == v && 0xD800 <= v <= 0xDBFF && Unescapable(rest)
    requires if n == 7 then t[6] != '\\' else t[6] == '\\' && t[7] != 'u'
    ensures Unescapable(t) && Unescape(t) == Unescape(rest)
  {
    hide FourDigits, Unit, Unescapable, Unescape;
    First(t);
    assert "" + Unescape(rest) == Unescape(rest);
  }

  /** The other escapes, by their letter and the number of the character; any other character stands for itself. */
  lemma LetterRead(c: char, rest: string)
    requires Unescapable(rest)
    ensures c in "\"\\/bfnrt" ==>
      && Unescapable(['\\', c] + rest)
      && Unescape(['\\', c] + rest) ==
          [(if c == 'b' then 8 else if c == 'f' then 12 else if c == 'n' then 10 else if c == 'r' then 13
            else if c == 't' then 9 else c as int) as char] + Unescape(rest)
    ensures c != '\\' ==> Unescapable([c] + rest) && Unescape([c] + rest) == [c] + Unescape(rest)
    ensures Unescape("") == ""
  {
    if c in "\"\\/bfnrt" {
      var t := ['\\', c] + rest;
      assert t[0] == '\\' && t[1] == c && t[2..] == rest && Escapable(c);
      hide Unescapable, Unescape;
      First(t);
    }
    if c != '\\' {
      var t := [c] + rest;
      assert t[0] == c && t[1..] == rest;
      hide Unescapable, Unescape;
      First(t);
    }
  }

  // Escaping

  /** The characters that json_escape and dl_escape_json replace, and by what. */
  function Replaced(c: char, slashes: bool, hex: string): string
    requires |hex| == 16
  {
    if c == '\"' || c == '\\' || (c == '/' && slashes) then ['\\', c]
    else if c as int == 8 then "\\b"
    else if c as int == 9 then "\\t"
    else if c as int == 10 then "\\n"
    else if c as int == 12 then "\\f"
    else if c as int == 13 then "\\r"
    else if c as int < 16 then "\\u000" + [hex[c as int]]
    else if c as int < 32 then "\\u001" + [hex[c as int - 16]]
    else [c]
  }

  /** What the two escapers write, character by character: only the first escapes slashes, and only the second writes
      capitals. */
  lemma EscapedText(c: char, s: string)
    ensures Escape([c] + s, JSON_ESCAPE) == Replaced(c, true, SMALL_HEX) + Escape(s, JSON_ESCAPE)
    ensures Escape([c] + s, DL_ESCAPE_JSON) == Replaced(c, false, CAPITAL_HEX) + Escape(s, DL_ESCAPE_JSON)
    ensures Escape("", JSON_ESCAPE) == "" == Escape("", DL_ESCAPE_JSON)
  {
    assert ([c] + s)[0] == c && ([c] + s)[1..] == s;
    EscapedChar(c);
    hide EscapeChar, Replaced;
  }

  lemma EscapedChar(c: char)
    ensures EscapeChar(c, JSON_ESCAPE) == Replaced(c, true, SMALL_HEX)
    ensures EscapeChar(c, DL_ESCAPE_JSON) == Replaced(c, false, CAPITAL_HEX)
  {
    if c < ' ' {
      var d := CAPITAL_HEX[c as int / 16];
      assert c as int / 16 == if c as int < 16 then 0 else 1;
    }
  }
}
