/** The growing strings in which the JSON code collects text, and the escapers. */
module JsonStrings {
  import opened Arithmetic
  import opened JsonLexer
  import opened JsonEscape
  import opened Words

  const RSTRING_INCSTEP := 5
  const RSTRING_DEFAULT := 8
  const NUL := 0 as char

  /** A buffer of `max` characters and a terminating NUL. */
  class RcString {
    var text: array<char>
    var length: nat
    var max: nat

    ghost predicate Valid()
      reads this, text
    {
      text.Length == max + 1 && length <= max && text[length] == NUL
    }

    ghost function Contents(): string
      requires Valid()
      reads this, text
    {
      text[..length]
    }

    constructor (size: nat)
      ensures Valid() && Contents() == "" && fresh(text) && max == size
    {
      var t := new char[size + 1];
      t[0] := NUL;
      text, length, max := t, 0, size;
    }

    /** More room; what is there stays. */
    method Resize(size: nat)
      requires Valid() && max <= size
      modifies this
      ensures Valid() && Contents() == old(Contents()) && fresh(text) && max == size && length == old(length)
    {
      var t := new char[size + 1];
      forall i | 0 <= i <= max { t[i] := text[i]; }
      t[size] := if size == max then t[size] else NUL;
      text, max := t, size;
    }

    /** Another character at the end. */
    method CatC(c: char)
      requires Valid()
      modifies this, text
      ensures Valid() && Contents() == old(Contents()) + [c] && (text == old(text) || fresh(text))
      ensures max == if old(max) <= old(length) then old(max) + 5 else old(max)
    {
      if max <= length { Resize(max + RSTRING_INCSTEP); }
      text[length] := c;
      length := length + 1;
      text[length] := NUL;
    }

    /** More characters at the end. */
    method CatCs(s: string)
      requires Valid()
      modifies this, text
      ensures Valid() && Contents() == old(Contents()) + s && (text == old(text) || fresh(text))
      ensures max == if old(max) < old(length) + |s| then old(length) + |s| + 5 else old(max)
    {
      if max < length + |s| { Resize(length + |s| + RSTRING_INCSTEP); }
      forall i | 0 <= i < |s| { text[length + i] := s[i]; }
      length := length + |s|;
      text[length] := NUL;
    }

    method Unwrap() returns (s: string)
      requires Valid()
      ensures s == Contents()
    {
      s := text[..length];
    }
  }

  /** Text escaped for a JSON string, slashes too. */
  method JsonEscapeText(text: string) returns (escaped: string)
    ensures escaped == Escape(text, JSON_ESCAPE)
  {
    var output := new RcString(|text|);
    var i := 0;
    while i < |text|
      invariant 0 <= i <= |text| && output.Valid() && fresh(output) && fresh(output.text)
      invariant output.Contents() + Escape(text[i..], JSON_ESCAPE) == Escape(text, JSON_ESCAPE)
    {
      EscapeNext(output.Contents(), text, i, JSON_ESCAPE);
      AppendEscaped(output, text[i]);
      i := i + 1;
    }
    assert text[i..] == [];
    escaped := output.Unwrap();
  }

  method AppendEscaped(output: RcString, c: char)
    requires output.Valid()
    modifies output, output.text
    ensures output.Valid() && output.Contents() == old(output.Contents()) + EscapeChar(c, JSON_ESCAPE)
    ensures output.text == old(output.text) || fresh(output.text)
  {
    if c == '\\' { output.CatCs("\\\\"); }
    else if c == '\"' { output.CatCs("\\\""); }
    else if c == '/' { output.CatCs("\\/"); }
    else if c == BACKSPACE { output.CatCs("\\b"); }
    else if c == FORM_FEED { output.CatCs("\\f"); }
    else if c == '\n' { output.CatCs("\\n"); }
    else if c == '\r' { output.CatCs("\\r"); }
    else if c == '\t' { output.CatCs("\\t"); }
    else if c < ' ' {
      var digits := Digits(false);
      output.CatCs("\\u00" + [digits[c as int / 16], digits[c as int % 16]]);
    } else { output.CatC(c); }
  }

  lemma EscapeNext(before: string, text: string, i: nat, style: Style)
    requires i < |text|
    ensures before + Escape(text[i..], style) == (before + EscapeChar(text[i], style)) + Escape(text[i + 1..], style)
  {
    assert text[i..][1..] == text[i + 1..];
    assert before + (EscapeChar(text[i], style) + Escape(text[i + 1..], style))
        == (before + EscapeChar(text[i], style)) + Escape(text[i + 1..], style);
  }

  /** Text that the lexer has accepted back to what it stands for; the result never outgrows the text. Behind a high
      surrogate at the end, the text would be read on beyond its own end. */
  method JsonUnescapeText(text: string) returns (result: array<char>, w: nat, beyond: bool)
    requires StringText(text)
    ensures beyond <==> EndsHigh(text)
    ensures !beyond ==> Unescapable(text)
    ensures !beyond ==>
      w <= |text| && result.Length == |text| + 1 && result[..w] == Unescape(text) && result[w] == NUL
  {
    result := new char[|text| + 1];
    var r := 0;
    w, beyond := 0, false;
    assert text[0..] == text;
    WalkIsState(text);
    while r < |text|
      invariant w <= r <= |text| && UpTo(result[..w], text, r)
      decreases |text| - r
    {
      w, r, beyond := UnescapeStep(result, text, w, r);
      if beyond { return; }
    }
    UpToEnd(result[..w], text);
    result[w] := NUL;
  }

  /** The next character or escape. */
  method UnescapeStep(result: array<char>, text: string, w: nat, r: nat) returns (w1: nat, r1: nat, beyond: bool)
    requires w <= r < |text| && result.Length == |text| + 1 && UpTo(result[..w], text, r)
    modifies result
    ensures beyond ==> EndsHigh(text)
    ensures !beyond ==> w1 <= r1 <= |text| && r < r1 && UpTo(result[..w1], text, r1)
  {
    hide UpTo, Unescapable, Unescaped, Size, Begins, EndsHigh;
    UnescapeNext(result[..w], text, r);
    var out, n := UnescapeOne(text, r);
    beyond := r + n > |text|;
    w1, r1 := w, r + n;
    if !beyond {
      Write(result, w, out);
      w1 := w + |out|;
    }
  }

  lemma UpToEnd(done: string, text: string)
    requires UpTo(done, text, |text|)
    ensures Unescapable(text) && !EndsHigh(text) && done == Unescape(text)
  {
    assert text[|text|..] == [];
    assert done + [] == done;
  }

  /** The part of the text before position `r` has become `done`. */
  ghost predicate UpTo(done: string, text: string, r: nat) {
    && r <= |text| && Walk(1, text[r..]) == 1
    && (EndsHigh(text) <==> EndsHigh(text[r..])) && (Unescapable(text) <==> Unescapable(text[r..]))
    && (Unescapable(text) ==> done + Unescape(text[r..]) == Unescape(text))
  }

  /** Characters at position `w`, after those already written. */
  method Write(result: array<char>, w: nat, out: string)
    requires w + |out| <= result.Length
    modifies result
    ensures result[..w + |out|] == old(result[..w]) + out
  {
    var i := 0;
    while i < |out|
      invariant 0 <= i <= |out| && result[..w + i] == old(result[..w]) + out[..i]
    {
      result[w + i] := out[i];
      i := i + 1;
    }
    assert out[..i] == out;
  }

  /** What begins at position `r` is a complete character, or it is a high surrogate at the end. */
  lemma UnescapeNext(done: string, text: string, r: nat)
    requires r < |text| && UpTo(done, text, r)
    ensures var t := text[r..];
      && Readable(t) && (Size(t) > |t| ==> EndsHigh(text))
      && (Size(t) <= |t| ==>
            Begins(t) && UpTo(done + Unescaped(t), text, r + Size(t)) && |Unescaped(t)| <= Size(t))
  {
    var t := text[r..];
    if |t| == 6 && HighAt(t, 0) {
      HighReadable(t);
    } else {
      WalkBegins(t);
      assert t[Size(t)..] == text[r + Size(t)..];
      UnescapeSplit(t);
      if Unescapable(t) { Assoc(done, Unescaped(t), Unescape(t[Size(t)..])); }
    }
  }

  /** What is read of the first character is there. */
  predicate Readable(t: string)
    requires t != []
  {
    if Size(t) <= |t| then Begins(t) else |t| == 6 && HighAt(t, 0) && FourDigits(t, 2)
  }

  lemma HighReadable(t: string)
    requires |t| == 6 && HighAt(t, 0) && Walk(1, t) == 1
    ensures Readable(t) && Size(t) == 7
  {
    assert t[1..][1..] == t[2..];
    WalkHex(t[2..]);
  }

  lemma UnescapeSplit(t: string)
    requires t != [] && Begins(t)
    ensures |Unescaped(t)| <= Size(t) && (Unescapable(t) <==> Unescapable(t[Size(t)..]))
    ensures Unescapable(t) ==> Unescape(t) == Unescaped(t) + Unescape(t[Size(t)..])
    ensures !(|t| == 6 && HighAt(t, 0)) ==> (EndsHigh(t) <==> EndsHigh(t[Size(t)..]))
  {
    if Size(t) == |t| { assert t[Size(t)..] == []; }
  }

  lemma Assoc(a: string, b: string, c: string)
    ensures a + (b + c) == (a + b) + c
  {
  }

  /** One character or escape at position `r`. After a high surrogate that no other number follows, the character
      or the escape that is there instead is skipped, or the end of the text. */
  method UnescapeOne(text: string, r: nat) returns (out: string, n: nat)
    requires r < |text| && Readable(text[r..])
    ensures n == Size(text[r..]) && (r + n <= |text| ==> out == Unescaped(text[r..]))
  {
    ghost var t := text[r..];
    if text[r] != '\\' { return [text[r]], 1; }
    assert t[1] == text[r + 1];
    var c := text[r + 1];
    if c != 'u' { return [Plain(c)], 2; }
    var unicode := UnitAt(text, r + 2);
    if !High(unicode) { return Utf8(unicode), 6; }
    if r + 6 == |text| || text[r + 6] != '\\' { return "", 7; }
    if text[r + 7] != 'u' { return "", 8; }
    var low := UnitAt(text, r + 8);
    out, n := Four((unicode - 0xD800) * 1024 + 0x10000 + low - 0xDC00), 12;
  }

  method UnitAt(text: string, i: nat) returns (u: nat)
    requires FourDigits(text, i)
    ensures u == Unit(text, i)
  {
    u := 0;
    var k := 0;
    while k < 4
      invariant 0 <= k <= 4
      invariant k == 0 ==> u == 0
      invariant k == 1 ==> u == HexValue(text[i])
      invariant k == 2 ==> u == HexValue(text[i]) * 16 + HexValue(text[i + 1])
      invariant k == 3 ==> u == HexValue(text[i]) * 256 + HexValue(text[i + 1]) * 16 + HexValue(text[i + 2])
      invariant k == 4 ==> u == Unit(text, i)
    {
      u := u * 16 + HexValue(text[i + k]);
      k := k + 1;
    }
  }

  // dl_escape_json

  /** By how much text grows when it is escaped. */
  ghost function Growth(src: string): (len: nat)
    ensures |Escape(src, DL_ESCAPE_JSON)| == |src| + len
  {
    if src == [] then 0 else |EscapeChar(src[0], DL_ESCAPE_JSON)| - 1 + Growth(src[1..])
  }

  /** The first pass, with no destination: by how much the text will grow, counted in 32 bits. The room that
      the count predicts is enough for the second pass exactly if the text grows by less than 2^32. */
  method EscapeGrowth(src: string) returns (len: nat)
    ensures len == (|Escape(src, DL_ESCAPE_JSON)| - |src|) % U32
    ensures |Escape(src, DL_ESCAPE_JSON)| <= |src| + len <==> |Escape(src, DL_ESCAPE_JSON)| - |src| < U32
    ensures |Escape(src, DL_ESCAPE_JSON)| == |src| + len <==> |Escape(src, DL_ESCAPE_JSON)| - |src| < U32
  {
    hide Escape, EscapeChar, Growth;
    len := 0;
    ghost var grown: nat := 0;
    var i := 0;
    assert src[i..] == src;
    while i < |src|
      invariant 0 <= i <= |src|
      invariant len == grown % U32 && grown + Growth(src[i..]) == Growth(src)
    {
      var more := Extra(src[i]);
      GrowthNext(src, i);
      Onwards(grown, more, U32);
      len := (len + more) % U32;
      grown := grown + more;
      i := i + 1;
    }
    assert src[i..] == [] && Growth([]) == 0 by { GrowthOfNone(); }
    Reduced(grown, U32);
  }

  lemma GrowthNext(src: string, i: nat)
    requires i < |src|
    ensures Growth(src[i..]) + 1 == |EscapeChar(src[i], DL_ESCAPE_JSON)| + Growth(src[i + 1..])
  {
    assert src[i..][1..] == src[i + 1..];
  }

  lemma GrowthOfNone()
    ensures Growth("") == 0
  {
  }

  lemma Reduced(x: nat, n: nat)
    requires n > 0
    ensures x % n <= x && (x % n == x <==> x < n)
  {
    if x < n { ModUnique(x, n, 0, x); }
  }

  /** What one character adds to the count. */
  method Extra(ch: char) returns (more: nat)
    ensures |EscapeChar(ch, DL_ESCAPE_JSON)| == 1 + more
  {
    more := 0;
    if ch == '\\' || ch == '\"' {
      more := 1;
    } else if ch < ' ' {
      if ch == '\n' || ch == '\r' || ch == '\t' || ch == BACKSPACE || ch == FORM_FEED {
        more := 1;
      } else {
        more := 5;
      }
    }
  }

  lemma {:induction false} ControlsGrow(src: string)
    requires forall i :: 0 <= i < |src| ==> src[i] == 1 as char
    ensures Growth(src) == 5 * |src|
  {
    if src != [] { ControlsGrow(src[1..]); }
  }

  /** 858993460 control characters grow by 2^32 + 4, of which the first pass counts 4. */
  lemma GrowthWraps(src: string)
    requires |src| == 858993460 && forall i :: 0 <= i < |src| ==> src[i] == 1 as char
    ensures (|Escape(src, DL_ESCAPE_JSON)| - |src|) % U32 == 4 && |Escape(src, DL_ESCAPE_JSON)| > |src| + 4
  {
    ControlsGrow(src);
  }

  /** The second pass, into a destination with that much room. */
  method EscapeInto(dst: array<char>, src: string) returns (end: nat)
    requires |Escape(src, DL_ESCAPE_JSON)| <= dst.Length
    modifies dst
    ensures end == |Escape(src, DL_ESCAPE_JSON)| && dst[..end] == Escape(src, DL_ESCAPE_JSON)
  {
    end := 0;
    var i := 0;
    assert src[0..] == src;
    while i < |src|
      invariant i <= |src| && end <= dst.Length && EscapedUpTo(dst[..end], src, i)
    {
      EscapedNext(dst[..end], src, i);
      end := EscapeStep(dst, src, end, i);
      i := i + 1;
    }
    assert src[i..] == [];
    assert dst[..end] + [] == dst[..end];
  }

  /** The part of the source before position `i` is escaped. */
  ghost predicate EscapedUpTo(done: string, src: string, i: nat) {
    i <= |src| && done + Escape(src[i..], DL_ESCAPE_JSON) == Escape(src, DL_ESCAPE_JSON)
  }

  lemma EscapedNext(done: string, src: string, i: nat)
    requires i < |src| && EscapedUpTo(done, src, i)
    ensures EscapedUpTo(done + EscapeChar(src[i], DL_ESCAPE_JSON), src, i + 1)
    ensures |done| + |EscapeChar(src[i], DL_ESCAPE_JSON)| <= |Escape(src, DL_ESCAPE_JSON)|
  {
    EscapeNext(done, src, i, DL_ESCAPE_JSON);
  }

  method EscapeStep(dst: array<char>, src: string, at: nat, i: nat) returns (end: nat)
    requires i < |src| && at + |EscapeChar(src[i], DL_ESCAPE_JSON)| <= dst.Length
    modifies dst
    ensures end == at + |EscapeChar(src[i], DL_ESCAPE_JSON)|
    ensures dst[..end] == old(dst[..at]) + EscapeChar(src[i], DL_ESCAPE_JSON)
  {
    var out := EscapeOne(src[i]);
    Write(dst, at, out);
    end := at + |out|;
  }

  method EscapeOne(ch: char) returns (out: string)
    ensures out == EscapeChar(ch, DL_ESCAPE_JSON)
  {
    if ch >= ' ' {
      out := (if ch == '\\' || ch == '\"' then "\\" else "") + [ch];
    } else if ch == '\n' {
      out := "\\n";
    } else if ch == '\r' {
      out := "\\r";
    } else if ch == '\t' {
      out := "\\t";
    } else if ch == BACKSPACE {
      out := "\\b";
    } else if ch == FORM_FEED {
      out := "\\f";
    } else {
      var low := ch as int % 16;
      out := "\\u00" + [('0' as int + ch as int / 16) as char,
          if low < 10 then ('0' as int + low) as char else ('A' as int + low - 10) as char];
      UpperDigits(ch);
    }
  }

  lemma UpperDigits(ch: char)
    requires ch < ' '
    ensures Digits(true)[ch as int / 16] as int == '0' as int + ch as int / 16
    ensures var low := ch as int % 16;
      Digits(true)[low] as int == if low < 10 then '0' as int + low else 'A' as int + low - 10
  {
  }
}
