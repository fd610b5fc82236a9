/** Escaping text for a JSON string, and undoing it. Characters are bytes; those from 128 up are parts of UTF-8. */
module JsonEscape {
  import opened JsonLexer
  import opened JsonParser
  import opened JsonPrint

  const BACKSPACE := 8 as char
  const FORM_FEED := 12 as char

  /** json_escape also escapes slashes and writes hexadecimal digits in lower case; dl_escape_json does neither. */
  datatype Style = Style(slash: bool, upper: bool)

  const JSON_ESCAPE := Style(true, false)
  const DL_ESCAPE_JSON := Style(false, true)

  function Digits(upper: bool): string {
    if upper then "0123456789ABCDEF" else "0123456789abcdef"
  }

  /** The letter that stands for a character after a backslash, or none. */
  function Short(c: char): string {
    if c == '\\' || c == '\"' || c == '/' then [c]
    else if c == BACKSPACE then "b"
    else if c == FORM_FEED then "f"
    else if c == '\n' then "n"
    else if c == '\r' then "r"
    else if c == '\t' then "t"
    else ""
  }

  function EscapeChar(c: char, style: Style): string {
    if Short(c) != "" && (c == '/' ==> style.slash) then "\\" + Short(c)
    else if c < ' ' then "\\u00" + [Digits(style.upper)[c as int / 16], Digits(style.upper)[c as int % 16]]
    else [c]
  }

  function Escape(s: string, style: Style): string {
    if s == [] then [] else EscapeChar(s[0], style) + Escape(s[1..], style)
  }

  // The lexer accepts it

  /** The lexer's states along a text, from the front. */
  function Walk(state: nat, t: string): nat
    decreases |t|
  {
    if t == [] then state else
      var s := StringNext(state, t[0]);
      if s == 0 then 0 else Walk(s, t[1..])
  }

  lemma {:induction false} WalkAppend(state: nat, a: string, b: string)
    requires state != 0
    ensures Walk(state, a + b) == if Walk(state, a) == 0 then 0 else Walk(Walk(state, a), b)
    decreases |a|
  {
    if a == [] {
      assert a + b == b;
    } else {
      assert (a + b)[0] == a[0] && (a + b)[1..] == a[1..] + b;
      if StringNext(state, a[0]) != 0 { WalkAppend(StringNext(state, a[0]), a[1..], b); }
    }
  }

  lemma {:induction false} WalkIsState(t: string)
    ensures Walk(1, t) == StringState(t)
    decreases |t|
  {
    if t != [] {
      var n := |t| - 1;
      WalkIsState(t[..n]);
      assert t == t[..n] + [t[n]];
      WalkAppend(1, t[..n], [t[n]]);
      assert [t[n]][1..] == [];
    }
  }

  lemma HexDigits(c: char, upper: bool)
    requires c < ' '
    ensures Hex(Digits(upper)[c as int / 16]) && Hex(Digits(upper)[c as int % 16])
    ensures HexValue(Digits(upper)[c as int / 16]) == c as int / 16
    ensures HexValue(Digits(upper)[c as int % 16]) == c as int % 16
  {
  }

  function HexValue(c: char): nat {
    if Digit(c) then c as int - '0' as int
    else if 'a' <= c <= 'f' then c as int - 'a' as int + 10
    else if 'A' <= c <= 'F' then c as int - 'A' as int + 10
    else 0
  }

  lemma WalkOne(c: char)
    requires c >= ' ' && c != '\\' && c != '\"'
    ensures Walk(1, [c]) == 1
  {
    assert [c][1..] == [];
  }

  lemma WalkTwo(c: char)
    requires Escapable(c)
    ensures Walk(1, ['\\', c]) == 1
  {
    assert ['\\', c][1..] == [c] && [c][1..] == [];
    assert Walk(2, [c]) == 1;
  }

  lemma WalkFour(a: char, b: char, c: char, d: char)
    requires Hex(a) && Hex(b) && Hex(c) && Hex(d)
    ensures Walk(3, [a, b, c, d]) == 1
  {
    assert [a, b, c, d][1..] == [b, c, d] && [b, c, d][1..] == [c, d] && [c, d][1..] == [d] && [d][1..] == [];
    assert Walk(6, [d]) == 1;
    assert Walk(5, [c, d]) == 1;
    assert Walk(4, [b, c, d]) == 1;
  }

  lemma WalkUnicode(a: char, b: char, c: char, d: char)
    requires Hex(a) && Hex(b) && Hex(c) && Hex(d)
    ensures Walk(1, "\\u" + [a, b, c, d]) == 1
  {
    assert "\\u"[1..] == "u" && "u"[1..] == [];
    assert Walk(1, "\\u") == 3;
    WalkAppend(1, "\\u", [a, b, c, d]);
    WalkFour(a, b, c, d);
  }

  lemma WalkEscapeChar(c: char, style: Style)
    ensures Walk(1, EscapeChar(c, style)) == 1
  {
    if Short(c) != "" && (c == '/' ==> style.slash) {
      assert "\\" + Short(c) == ['\\', Short(c)[0]];
      WalkTwo(Short(c)[0]);
    } else if c < ' ' {
      HexDigits(c, style.upper);
      var d := Digits(style.upper);
      WalkUnicode('0', '0', d[c as int / 16], d[c as int % 16]);
      assert EscapeChar(c, style) == "\\u" + ['0', '0', d[c as int / 16], d[c as int % 16]];
    } else {
      WalkOne(c);
    }
  }

  /** Escaped text may stand in a JSON string. */
  lemma {:induction false} EscapedIsText(s: string, style: Style)
    ensures StringText(Escape(s, style))
    decreases |s|
  {
    WalkIsState(Escape(s, style));
    if s != [] {
      EscapedIsText(s[1..], style);
      WalkIsState(Escape(s[1..], style));
      WalkEscapeChar(s[0], style);
      WalkAppend(1, EscapeChar(s[0], style), Escape(s[1..], style));
    }
  }

  /** The lexer reads an escaped text between quotes as one string token. */
  lemma EscapedIsToken(s: string, style: Style, p: Parser)
    requires Deep(p) && !Pending(p) && Idle(p)
    ensures Steps(p, Quoted(Escape(s, style))) == Deliver(p.(lex := p.lex.(text := Escape(s, style))), Text)
  {
    EscapedIsText(s, style);
    ReadText(p, Escape(s, style));
  }

  // Undoing it

  function Plain(c: char): char {
    if c == 'b' then BACKSPACE
    else if c == 'f' then FORM_FEED
    else if c == 'n' then '\n'
    else if c == 'r' then '\r'
    else if c == 't' then '\t'
    else c
  }

  /** Four hexadecimal digits from position `i` on. */
  predicate FourDigits(t: string, i: nat) {
    i + 4 <= |t| && Hex(t[i]) && Hex(t[i + 1]) && Hex(t[i + 2]) && Hex(t[i + 3])
  }

  function Unit(t: string, i: nat): (u: nat)
    requires i + 4 <= |t|
    ensures u < 0x10000
  {
    HexValue(t[i]) * 4096 + HexValue(t[i + 1]) * 256 + HexValue(t[i + 2]) * 16 + HexValue(t[i + 3])
  }

  predicate High(u: nat) {
    0xD800 <= u <= 0xDBFF
  }

  predicate Low(u: nat) {
    0xDC00 <= u <= 0xDFFF
  }

  /** The length of the first character's text: one, an escape, or a high surrogate with what follows it. */
  function Size(t: string): (n: nat)
    requires t != []
    ensures n > 0
  {
    if t[0] != '\\' then 1
    else if |t| > 1 && t[1] == 'u' then (if |t| >= 6 && High(Unit(t, 2)) then WithNext(t) else 6)
    else 2
  }

  /** After a high surrogate another number is expected. A character, or another escape, that is there instead is
      skipped; at the end of the text, that is the end itself. */
  function WithNext(t: string): nat
    requires |t| >= 6
  {
    if |t| == 6 || t[6] != '\\' then 7 else if |t| == 7 || t[7] != 'u' then 8 else 12
  }

  /** The text begins with a complete character. */
  predicate Begins(t: string)
    requires t != []
  {
    && Size(t) <= |t|
    && (Size(t) == 2 ==> Escapable(t[1]))
    && (Size(t) >= 6 ==> FourDigits(t, 2))
    && (Size(t) == 12 ==> FourDigits(t, 8))
  }

  /** Text made of complete characters. */
  predicate Unescapable(t: string)
    decreases |t|
  {
    t == [] || (Begins(t) && Unescapable(t[Size(t)..]))
  }

  /** The number of the first character. */
  function CodePoint(t: string): (u: nat)
    requires t != [] && Begins(t) && (Size(t) == 6 || Size(t) == 12)
    ensures if Size(t) == 6 then u < 0x10000 else u < 0x112000
  {
    if Size(t) == 6 then Unit(t, 2) else (Unit(t, 2) - 0xD800) * 1024 + (Unit(t, 8) - 0xDC00) + 0x10000
  }

  function Utf8(u: nat): (s: string)
    requires u < 0x110000
    ensures 1 <= |s| <= 4 && (u < 0x10000 ==> |s| <= 3)
  {
    if u < 0x80 then [u as char]
    else if u < 0x800 then [(0xC0 + u / 64) as char, (0x80 + u % 64) as char]
    else if u < 0x10000 then [(0xE0 + u / 64 / 64) as char, (0x80 + u / 64 % 64) as char, (0x80 + u % 64) as char]
    else Four(u)
  }

  /** Four bytes, which the code writes for any two numbers of which the first is a high surrogate. */
  function Four(u: nat): (s: string)
    requires u < 0x112000
    ensures |s| == 4
  {
    [(0xF0 + u / 64 / 64 / 64) as char, (0x80 + u / 64 / 64 % 64) as char, (0x80 + u / 64 % 64) as char,
      (0x80 + u % 64) as char]
  }

  /** What the first character becomes. */
  function Unescaped(t: string): (s: string)
    requires t != [] && Begins(t)
    ensures |s| <= Size(t)
  {
    if Size(t) == 1 then [t[0]] else if Size(t) == 2 then [Plain(t[1])] else if Size(t) == 6 then Utf8(CodePoint(t))
    else if Size(t) == 12 then Four(CodePoint(t)) else ""
  }

  function Unescape(t: string): (s: string)
    requires Unescapable(t)
    ensures |s| <= |t|
    decreases |t|
  {
    if t == [] then [] else Unescaped(t) + Unescape(t[Size(t)..])
  }

  lemma EscapedBegins(c: char, style: Style, rest: string)
    ensures var t := EscapeChar(c, style) + rest;
      Begins(t) && t[Size(t)..] == rest && Unescaped(t) == [c]
  {
    var t := EscapeChar(c, style) + rest;
    if Short(c) != "" && (c == '/' ==> style.slash) {
      assert t[1] == Short(c)[0];
    } else if c < ' ' {
      HexDigits(c, style.upper);
      var d := Digits(style.upper);
      assert t[0] == '\\' && t[1] == 'u' && t[2] == '0' && t[3] == '0' && t[4] == d[c as int / 16]
          && t[5] == d[c as int % 16];
      assert Unit(t, 2) == c as int;
    }
  }

  /** Unescaping undoes escaping, in either style. */
  lemma {:induction false} UnescapeEscape(s: string, style: Style)
    ensures Unescapable(Escape(s, style)) && Unescape(Escape(s, style)) == s
    decreases |s|
  {
    if s != [] {
      UnescapeEscape(s[1..], style);
      EscapedBegins(s[0], style, Escape(s[1..], style));
      assert [s[0]] + s[1..] == s;
    }
  }

  /** Reading one character of UTF-8, as section 3 of RFC 3629 defines it. */
  function Utf8Value(s: string): int
    requires s != []
  {
    var b := s[0] as int;
    if b < 0x80 && |s| == 1 then b
    else if 0xC0 <= b < 0xE0 && |s| == 2 then (b - 0xC0) * 64 + (s[1] as int - 0x80)
    else if 0xE0 <= b < 0xF0 && |s| == 3 then ((b - 0xE0) * 64 + (s[1] as int - 0x80)) * 64 + (s[2] as int - 0x80)
    else if 0xF0 <= b < 0xF8 && |s| == 4 then
      (((b - 0xF0) * 64 + (s[1] as int - 0x80)) * 64 + (s[2] as int - 0x80)) * 64 + (s[3] as int - 0x80)
    else -1
  }

  /** The bytes written for a character mean that character, in the shortest form, and those after the first are
      continuation bytes. */
  lemma Utf8Means(u: nat)
    requires u < 0x110000
    ensures Utf8Value(Utf8(u)) == u
    ensures |Utf8(u)| == if u < 0x80 then 1 else if u < 0x800 then 2 else if u < 0x10000 then 3 else 4
    ensures forall i :: 0 < i < |Utf8(u)| ==> 0x80 <= Utf8(u)[i] as int < 0xC0
  {
  }

  /** A surrogate pair becomes the character it stands for. */
  lemma PairMeans(t: string)
    requires t != [] && Begins(t) && Size(t) == 12 && Low(Unit(t, 8))
    ensures var u := 0x10000 + (Unit(t, 2) - 0xD800) * 1024 + (Unit(t, 8) - 0xDC00);
      0x10000 <= u < 0x110000 && Unescaped(t) == Utf8(u)
  {
  }

  /** An escape at position `i` is a high surrogate. */
  predicate HighAt(t: string, i: nat) {
    i + 6 <= |t| && t[i] == '\\' && t[i + 1] == 'u' && High(Unit(t, i + 2))
  }

  /** Read character by character, the text ends right after a high surrogate. */
  predicate EndsHigh(t: string)
    decreases |t|
  {
    t != [] && ((|t| == 6 && HighAt(t, 0)) || (Size(t) < |t| && EndsHigh(t[Size(t)..])))
  }

  /** Every text the lexer accepts in a string can be unescaped, exactly if it does not end after a high surrogate. */
  lemma {:induction false} TextUnescapable(t: string)
    requires Walk(1, t) == 1
    ensures Unescapable(t) <==> !EndsHigh(t)
    decreases |t|
  {
    if t != [] {
      if |t| == 6 && HighAt(t, 0) {
        assert Size(t) == 7;
      } else {
        WalkBegins(t);
        TextUnescapable(t[Size(t)..]);
      }
    }
  }

  /** What is at the end of such a text. */
  lemma {:induction false} EndsHighAt(t: string)
    requires EndsHigh(t)
    ensures |t| >= 6 && HighAt(t, |t| - 6)
    decreases |t|
  {
    if !(|t| == 6 && HighAt(t, 0)) {
      var n, rest := Size(t), t[Size(t)..];
      EndsHighAt(rest);
      assert Unit(rest, |rest| - 4) == Unit(t, |t| - 4);
    }
  }

  /** One escape of a high surrogate is text that the lexer accepts, and ends there. */
  lemma LoneHigh()
    ensures StringText("\\ud800") && EndsHigh("\\ud800")
  {
    var t := "\\ud800";
    assert t == "\\u" + ['d', '8', '0', '0'];
    WalkUnicode('d', '8', '0', '0');
    WalkIsState(t);
    assert Unit(t, 2) == 0xD800;
  }

  lemma WalkBegins(t: string)
    requires t != [] && Walk(1, t) == 1 && !(|t| == 6 && HighAt(t, 0))
    ensures Begins(t) && Walk(1, t[Size(t)..]) == 1
  {
    if t[0] == '\\' {
      assert t[1..] != [];
      assert t[1..][1..] == t[2..];
      if t[1] == 'u' {
        WalkHex(t[2..]);
        assert t[2..][4..] == t[6..];
        if High(Unit(t, 2)) { WalkNext(t); }
      }
    }
  }

  lemma WalkNext(t: string)
    requires |t| > 6 && Walk(1, t[6..]) == 1
    ensures WithNext(t) <= |t| && Walk(1, t[WithNext(t)..]) == 1 && (WithNext(t) == 12 ==> FourDigits(t, 8))
  {
    var u := t[6..];
    assert u[1..] == t[7..];
    if t[6] == '\\' {
      assert Walk(2, t[7..]) == 1 && t[7..] != [] && t[7..][1..] == t[8..];
      if t[7] == 'u' {
        WalkHex(t[8..]);
        assert t[8..][4..] == t[12..];
      }
    }
  }

  lemma WalkHex(t: string)
    requires Walk(3, t) == 1
    ensures FourDigits(t, 0) && Walk(1, t[4..]) == 1
  {
    assert t != [] && Walk(4, t[1..]) == 1;
    assert t[1..] != [] && t[1..][1..] == t[2..] && Walk(5, t[2..]) == 1;
    assert t[2..] != [] && t[2..][1..] == t[3..] && Walk(6, t[3..]) == 1;
    assert t[3..] != [] && t[3..][1..] == t[4..];
  }
}
