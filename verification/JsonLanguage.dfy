/** Which texts the parser accepts, which tree each stands for, and on which line it ends. */
module JsonLanguage {
  import opened JsonGrammar
  import opened JsonLexer
  import opened JsonParser
  import opened JsonFragments
  import opened JsonTrees
  import opened JsonPrint
  import opened JsonTokens

  // Texts of tokens, with blanks between them

  function Spelling(x: Lexeme): string {
    match x.tok
    case Text => "\"" + x.text + "\""
    case Number => x.text
    case True => "true"
    case False => "false"
    case Null => "null"
    case BeginObject => "{"
    case EndObject => "}"
    case BeginArray => "["
    case EndArray => "]"
    case NameSeparator => ":"
    case ValueSeparator => ","
    case _ => ""
  }

  predicate LineEnd(c: char) {
    c == '\n' || c == '\r'
  }

  predicate Spaces(s: string) {
    forall i :: 0 <= i < |s| ==> s[i] == ' ' || s[i] == '\t' || LineEnd(s[i])
  }

  /** The tokens with a gap before the first and after each. */
  function Join(ts: seq<Lexeme>, gaps: seq<string>): string
    requires |gaps| == |ts| + 1
  {
    if ts == [] then gaps[0] else
      var n := |ts| - 1;
      Join(ts[..n], gaps[..n + 1]) + Spelling(ts[n]) + gaps[n + 1]
  }

  /** A number must be set off from what follows, unless that is a comma or a closing bracket. */
  predicate SetOff(ts: seq<Lexeme>, gaps: seq<string>, i: nat)
    requires |gaps| == |ts| + 1 && i + 1 < |ts|
  {
    ts[i].tok == Number && gaps[i + 1] == "" ==>
      ts[i + 1].tok == ValueSeparator || ts[i + 1].tok == EndObject || ts[i + 1].tok == EndArray
  }

  /** Gaps are blank, and the tokens stay apart. */
  predicate Spaced(ts: seq<Lexeme>, gaps: seq<string>) {
    && |gaps| == |ts| + 1
    && (forall i :: 0 <= i < |gaps| ==> Spaces(gaps[i]))
    && (forall i :: 0 <= i < |ts| - 1 ==> SetOff(ts, gaps, i))
  }

  function LineEnds(s: string): nat {
    if s == "" then 0 else LineEnds(s[..|s| - 1]) + if LineEnd(s[|s| - 1]) then 1 else 0
  }

  /** The part of a gap in which line ends are counted: the character right behind a number is not. */
  function Counted(x: Lexeme, gap: string): string {
    if x.tok == Number && gap != "" then gap[1..] else gap
  }

  function Lines(ts: seq<Lexeme>, gaps: seq<string>): nat
    requires |gaps| == |ts| + 1
  {
    if ts == [] then LineEnds(gaps[0]) else
      var n := |ts| - 1;
      Lines(ts[..n], gaps[..n + 1]) + LineEnds(Counted(ts[n], gaps[n + 1]))
  }

  // Reading a gap and a token

  /** The parser after some tokens, on a line. */
  function OnLine(p: Parser, line: nat): Parser {
    p.(lex := Lex(0, "", line))
  }

  lemma {:induction false} EatSpaces(p: Parser, s: string, line: nat)
    requires Deep(p) && p == OnLine(p, line) && Spaces(s)
    ensures Steps(p, s) == Going(OnLine(if s == "" then p else Opened(p), line + LineEnds(s)))
    decreases |s|
  {
    if s != "" {
      var n := |s| - 1;
      EatSpaces(p, s[..n], line);
      assert s == s[..n] + [s[n]];
      StepsAppend(p, s[..n], [s[n]]);
      OpenedLine(p, line + LineEnds(s[..n]));
      var q := OnLine(if s[..n] == "" then p else Opened(p), line + LineEnds(s[..n]));
      hide Steps, Opened, Deep;
      EatSpace(q, s[n], line + LineEnds(s[..n]));
    }
  }

  lemma OpenedLine(p: Parser, line: nat)
    requires Deep(p)
    ensures Deep(Opened(p)) && Opened(Opened(p)) == Opened(p) && !Pending(Opened(p))
    ensures Deep(OnLine(p, line)) && Deep(OnLine(Opened(p), line))
    ensures Opened(OnLine(p, line)) == OnLine(Opened(p), line) == Opened(OnLine(Opened(p), line))
  {
  }

  lemma EatSpace(p: Parser, c: char, line: nat)
    requires Deep(p) && p == OnLine(p, line) && Spaces([c])
    ensures Steps(p, [c]) == Going(OnLine(Opened(p), line + if LineEnd(c) then 1 else 0))
  {
    assert [c][0] == c;
    var l := Lex(0, "", line + if LineEnd(c) then 1 else 0);
    assert LexChar(p.lex, c) == Eat(l);
    OpenedSteps(p, [c]);
    OneChar(Opened(p), c, l);
  }

  /** An outcome on another line. */
  function Lined(r: Result, line: nat): Result {
    match r
    case Failed(code) => Failed(code)
    case Going(p) => Going(OnLine(p, line))
  }

  /** A token is delivered alike on every line. */
  lemma DeliverLine(p: Parser, text: string, tok: Token, line: nat)
    requires Deep(p) && (tok == Text || tok == Number || text == "")
    ensures var r := Deliver(p.(lex := Lex(0, text, 1)), tok);
      Deliver(p.(lex := Lex(0, text, line)), tok) == Lined(r, line) && (r.Going? ==> r.p.lex == START)
  {
    hide Up, Insert, Cursor, Scalar;
    var a, b := p.(lex := Lex(0, text, 1)), p.(lex := Lex(0, text, line));
    if p.stack != [] { LeaveLine(a, b); }
    hide Leave;
  }

  lemma LeaveLine(a: Parser, b: Parser)
    requires a.stack != [] && b == a.(lex := b.lex)
    ensures var r := Leave(a);
      && Leave(b) == (match r case Failed(code) => Failed(code) case Going(q) => Going(q.(lex := b.lex)))
      && (r.Going? ==> r.p.lex == a.lex)
  {
    hide Up, Insert, Cursor;
  }

  /** What has been opened is read on from, whether or not it was pending. */
  lemma StepsOpened(p: Parser, line: nat, s: string)
    requires Deep(p) && s != ""
    ensures Deep(OnLine(p, line)) && Deep(OnLine(Opened(p), line))
    ensures Steps(OnLine(p, line), s) == Steps(OnLine(Opened(p), line), s)
  {
    OpenedLine(p, line);
    OpenedSteps(OnLine(p, line), s);
  }

  lemma ReadMark(p: Parser, x: Lexeme, line: nat)
    requires Deep(p) && !Pending(p) && p.lex == START && x.tok != Invalid && |Spelling(x)| == 1
    requires Mark(Spelling(x)[0]) == x.tok
    ensures Steps(OnLine(p, line), Spelling(x)) == Deliver(OnLine(p, line), x.tok)
  {
    var c, o := Spelling(x)[0], OnLine(p, line);
    assert Spelling(x) == [c] + "";
    assert LexChar(o.lex, c) == Emit(x.tok, o.lex, true);
    DeliverDeep(o, x.tok);
    OneStep(o, c, "");
  }

  /** Any token but a number is read and delivered. */
  lemma ReadToken(p: Parser, x: Lexeme, line: nat)
    requires Deep(p) && p.lex == START && Good(x) && x.tok != Number
    ensures Steps(OnLine(p, line), Spelling(x)) == Lined(Take(p, x), line)
  {
    var o := Opened(p);
    OpenedLine(p, line);
    StepsOpened(p, line, Spelling(x));
    DeliverLine(o, x.text, x.tok, line);
    var w := OnLine(o, line);
    match x.tok
    case Text => ReadText(w, x.text);
    case True => ReadTrue(w);
    case False => ReadFalse(w);
    case Null => ReadNull(w);
    case _ => ReadMark(o, x, line);
  }

  /** Inside a number that may end. */
  function InNumberText(p: Parser, t: string, line: nat): Parser {
    Opened(p).(lex := Lex(NumberState(t), t, line))
  }

  lemma ReadFigures(p: Parser, t: string, line: nat)
    requires Deep(p) && p.lex == START && NumberText(t)
    ensures Steps(OnLine(p, line), t) == Going(InNumberText(p, t, line))
  {
    OpenedLine(p, line);
    StepsOpened(p, line, t);
    EatNumber(OnLine(Opened(p), line), t);
  }

  /** A blank ends the number and is gone, and a closing character ends it and is read again; unless the number is
      refused. */
  lemma EndNumber(p: Parser, t: string, line: nat, c: char, rest: string)
    requires Deep(p) && p.lex == START && NumberText(t)
    ensures Deep(InNumberText(p, t, line)) && var r := Take(p, Lexeme(Number, t));
      && (r.Failed? && (Spaces([c]) || Closes(c)) ==>
          Steps(InNumberText(p, t, line), [c] + rest) == Failed(r.code))
      && (r.Going? && Spaces([c]) ==> Steps(InNumberText(p, t, line), [c] + rest) == Steps(OnLine(r.p, line), rest))
      && (r.Going? && Closes(c) ==>
          Steps(InNumberText(p, t, line), [c] + rest) == Steps(OnLine(r.p, line), [c] + rest))
  {
    var w, r := InNumberText(p, t, line), Take(p, Lexeme(Number, t));
    OpenedLine(p, line);
    NumberStates(t);
    DeliverLine(Opened(p), t, Number, line);
    assert Spaces([c]) ==> Blank(c) by { assert [c][0] == c; }
    OneStep(w, c, rest);
    if r.Going? { OneStep(OnLine(r.p, line), c, rest); }
    if Blank(c) || Closes(c) {
      assert LexChar(w.lex, c) == Emit(Number, Lex(0, t, line), Blank(c));
      assert Opened(w) == w;
    }
  }

  // Reading all of it

  /** The text stops right behind a number. */
  predicate Hangs(ts: seq<Lexeme>, gaps: seq<string>) {
    |gaps| == |ts| + 1 && ts != [] && ts[|ts| - 1].tok == Number && gaps[|ts|] == ""
  }

  /** Where the parser is after the text. */
  function Arrival(ts: seq<Lexeme>, gaps: seq<string>): Parser
    requires |gaps| == |ts| + 1 && TakeAll(ts).Going?
  {
    var n, line := |ts|, 1 + Lines(ts, gaps);
    if Hangs(ts, gaps) then InNumberText(TakeAll(ts[..n - 1]).p, ts[n - 1].text, line)
    else if gaps[n] == "" then OnLine(TakeAll(ts).p, line)
    else OnLine(Opened(TakeAll(ts).p), line)
  }

  /** One token and the gap behind it. */
  lemma ReadOne(p: Parser, x: Lexeme, gap: string, line: nat)
    requires Deep(p) && p.lex == START && Good(x) && Take(p, x).Going? && Spaces(gap)
    ensures Deep(OnLine(p, line)) && var q, last := Take(p, x).p, line + LineEnds(Counted(x, gap));
      Steps(OnLine(p, line), Spelling(x) + gap) == Going(
        if x.tok == Number && gap == "" then InNumberText(p, x.text, last)
        else OnLine(if gap == "" then q else Opened(q), last))
  {
    hide *;
    OpenedLine(p, line);
    GapParts(x, gap);
    if x.tok != Number {
      ReadOther(p, x, Take(p, x).p, gap, line);
    } else if gap == "" {
      ReadFigures(p, x.text, line);
    } else {
      ReadSetOff(p, x.text, Take(p, x).p, gap[0], gap[1..], line);
    }
  }

  lemma GapParts(x: Lexeme, gap: string)
    requires Good(x) && Spaces(gap)
    ensures x.tok == Number ==> x == Lexeme(Number, x.text) && NumberText(x.text) && Spelling(x) == x.text
    ensures x.tok != Number ==> Counted(x, gap) == gap
    ensures x.tok == Number && gap == "" ==> LineEnds(Counted(x, gap)) == 0 && x.text + gap == x.text
    ensures x.tok == Number && gap != "" ==>
      Counted(x, gap) == gap[1..] && Spaces([gap[0]]) && Spaces(gap[1..]) && [gap[0]] + gap[1..] == gap
  {
    hide NumberText, StringText;
  }

  lemma ReadOther(p: Parser, x: Lexeme, q: Parser, gap: string, line: nat)
    requires Deep(p) && p.lex == START && Good(x) && x.tok != Number && Take(p, x) == Going(q) && Spaces(gap)
    ensures Deep(OnLine(p, line))
    ensures Steps(OnLine(p, line), Spelling(x) + gap) ==
      Going(OnLine(if gap == "" then q else Opened(q), line + LineEnds(gap)))
  {
    OpenedLine(p, line);
    TakeStart(p, x);
    hide *;
    StepsAppend(OnLine(p, line), Spelling(x), gap);
    ReadToken(p, x, line);
    EatGap(q, gap, line);
  }

  lemma EatGap(p: Parser, gap: string, line: nat)
    requires Deep(p) && p.lex == START && Spaces(gap)
    ensures Deep(OnLine(p, line))
    ensures Steps(OnLine(p, line), gap) == Going(OnLine(if gap == "" then p else Opened(p), line + LineEnds(gap)))
  {
    OpenedLine(p, line);
    EatSpaces(OnLine(p, line), gap, line);
    hide Steps, Opened, Deep;
  }

  lemma ReadSetOff(p: Parser, t: string, q: Parser, c: char, rest: string, line: nat)
    requires Deep(p) && p.lex == START && NumberText(t) && Take(p, Lexeme(Number, t)) == Going(q)
    requires Spaces([c]) && Spaces(rest)
    ensures Deep(OnLine(p, line))
    ensures Steps(OnLine(p, line), t + ([c] + rest)) == Going(OnLine(Opened(q), line + LineEnds(rest)))
  {
    OpenedLine(p, line);
    TakeStart(p, Lexeme(Number, t));
    NumberOpens(p, Lexeme(Number, t));
    hide *;
    ReadFigures(p, t, line);
    StepsAppend(OnLine(p, line), t, [c] + rest);
    EndNumber(p, t, line, c, rest);
    EatGap(q, rest, line);
  }

  lemma TakeStart(p: Parser, x: Lexeme)
    requires Deep(p) && Good(x) && Take(p, x).Going?
    ensures Take(p, x).p.lex == START
  {
    DeliverLine(Opened(p), x.text, x.tok, 1);
  }

  lemma NumberOpens(p: Parser, x: Lexeme)
    requires Deep(p) && x.tok == Number && Take(p, x).Going?
    ensures Opened(Take(p, x).p) == Take(p, x).p
  {
  }

  lemma TakeAllStart(ts: seq<Lexeme>)
    requires AllGood(ts) && TakeAll(ts).Going?
    ensures TakeAll(ts).p.lex == START && Deep(TakeAll(ts).p)
  {
    if ts != [] { TakeStart(TakeAll(ts[..|ts| - 1]).p, ts[|ts| - 1]); }
  }

  /** From where the text has led, what follows is read as from the place behind the last token. */
  lemma Resume(ts: seq<Lexeme>, gaps: seq<string>, s: string)
    requires |gaps| == |ts| + 1 && AllGood(ts) && TakeAll(ts).Going? && s != "" && (Hangs(ts, gaps) ==> Closes(s[0]))
    ensures Deep(Arrival(ts, gaps)) && Deep(OnLine(TakeAll(ts).p, 1 + Lines(ts, gaps)))
    ensures Steps(Arrival(ts, gaps), s) == Steps(OnLine(TakeAll(ts).p, 1 + Lines(ts, gaps)), s)
  {
    hide *;
    var line := 1 + Lines(ts, gaps);
    TakeAllStart(ts);
    OpenedLine(TakeAll(ts).p, line);
    ArrivalCases(ts, gaps);
    if Hangs(ts, gaps) {
      ResumeNumber(ts, gaps, s, line);
    } else {
      StepsOpened(TakeAll(ts).p, line, s);
    }
  }

  lemma ArrivalCases(ts: seq<Lexeme>, gaps: seq<string>)
    requires |gaps| == |ts| + 1 && TakeAll(ts).Going?
    ensures var n, line := |ts|, 1 + Lines(ts, gaps);
      if Hangs(ts, gaps) then
        n > 0 && TakeAll(ts[..n - 1]).Going?
        && Arrival(ts, gaps) == InNumberText(TakeAll(ts[..n - 1]).p, ts[n - 1].text, line)
      else
        Arrival(ts, gaps) ==
          if gaps[n] == "" then OnLine(TakeAll(ts).p, line) else OnLine(Opened(TakeAll(ts).p), line)
  {
    hide TakeAll, Lines, OnLine, Opened, InNumberText;
    if Hangs(ts, gaps) { TakeAllLast(ts); }
  }

  lemma ResumeNumber(ts: seq<Lexeme>, gaps: seq<string>, s: string, line: nat)
    requires AllGood(ts) && Hangs(ts, gaps) && TakeAll(ts).Going? && s != "" && Closes(s[0])
    ensures var n := |ts|;
        TakeAll(ts[..n - 1]).Going? && Deep(InNumberText(TakeAll(ts[..n - 1]).p, ts[n - 1].text, line))
    ensures Deep(OnLine(TakeAll(ts).p, line))
    ensures var w := InNumberText(TakeAll(ts[..|ts| - 1]).p, ts[|ts| - 1].text, line);
      Steps(w, s) == Steps(OnLine(TakeAll(ts).p, line), s)
  {
    var n := |ts|;
    hide *;
    HangsNumber(ts, gaps);
    TakeAllStart(ts);
    TakeAllLast(ts);
    TakeAllStart(ts[..n - 1]);
    OpenedLine(TakeAll(ts).p, line);
    assert s == [s[0]] + s[1..];
    EndNumber(TakeAll(ts[..n - 1]).p, ts[n - 1].text, line, s[0], s[1..]);
  }

  lemma HangsNumber(ts: seq<Lexeme>, gaps: seq<string>)
    requires AllGood(ts) && Hangs(ts, gaps)
    ensures ts != [] && AllGood(ts[..|ts| - 1])
    ensures var x := ts[|ts| - 1]; x == Lexeme(Number, x.text) && NumberText(x.text)
  {
    assert Good(ts[|ts| - 1]);
    hide NumberText;
  }

  lemma SpellingStarts(x: Lexeme)
    requires Good(x)
    ensures Spelling(x) != ""
    ensures x.tok == ValueSeparator || x.tok == EndObject || x.tok == EndArray ==> Closes(Spelling(x)[0])
  {
  }

  lemma JoinMore(ts: seq<Lexeme>, gaps: seq<string>, x: Lexeme, gap: string)
    requires |gaps| == |ts| + 1
    ensures Join(ts + [x], gaps + [gap]) == Join(ts, gaps) + (Spelling(x) + gap)
  {
    hide Spelling;
    assert (ts + [x])[..|ts|] == ts && (gaps + [gap])[..|gaps|] == gaps;
    Assoc(Join(ts, gaps), Spelling(x), gap);
  }

  lemma Assoc(a: string, b: string, c: string)
    ensures a + (b + c) == a + b + c
  {
  }

  lemma LinesMore(ts: seq<Lexeme>, gaps: seq<string>, x: Lexeme, gap: string)
    requires |gaps| == |ts| + 1
    ensures Lines(ts + [x], gaps + [gap]) == Lines(ts, gaps) + LineEnds(Counted(x, gap))
  {
    hide LineEnds, Counted;
    assert (ts + [x])[..|ts|] == ts && (gaps + [gap])[..|gaps|] == gaps;
  }

  lemma ArrivalMore(ts: seq<Lexeme>, gaps: seq<string>, x: Lexeme, gap: string)
    requires |gaps| == |ts| + 1 && TakeAll(ts).Going? && Take(TakeAll(ts).p, x).Going?
    ensures TakeAll(ts + [x]) == Take(TakeAll(ts).p, x)
    ensures var q, last := Take(TakeAll(ts).p, x).p, 1 + Lines(ts + [x], gaps + [gap]);
      Arrival(ts + [x], gaps + [gap]) ==
        if x.tok == Number && gap == "" then InNumberText(TakeAll(ts).p, x.text, last)
        else OnLine(if gap == "" then q else Opened(q), last)
  {
    hide Lines, Take, Opened, InNumberText, OnLine, TakeAll;
    TakeAllMore(ts, x);
    assert (ts + [x])[..|ts|] == ts;
  }

  /** The next token may follow the text so far. */
  predicate MayFollow(ts: seq<Lexeme>, gaps: seq<string>, x: Lexeme)
    requires |gaps| == |ts| + 1
  {
    Hangs(ts, gaps) ==> x.tok == ValueSeparator || x.tok == EndObject || x.tok == EndArray
  }

  lemma StartOf(x: Lexeme, gap: string)
    requires Good(x)
    ensures var s := Spelling(x) + gap;
      s != "" && (x.tok == ValueSeparator || x.tok == EndObject || x.tok == EndArray ==> Closes(s[0]))
  {
    SpellingStarts(x);
    hide Spelling;
  }

  lemma ReadMore(ts: seq<Lexeme>, gaps: seq<string>, x: Lexeme, gap: string)
    requires |gaps| == |ts| + 1 && AllGood(ts) && Good(x) && Spaces(gap) && MayFollow(ts, gaps, x)
    requires TakeAll(ts).Going? && Take(TakeAll(ts).p, x).Going?
    requires Steps(INIT, Join(ts, gaps)) == Going(Arrival(ts, gaps))
    ensures TakeAll(ts + [x]).Going?
    ensures Steps(INIT, Join(ts + [x], gaps + [gap])) == Going(Arrival(ts + [x], gaps + [gap]))
  {
    hide *;
    JoinMore(ts, gaps, x, gap);
    LinesMore(ts, gaps, x, gap);
    ArrivalMore(ts, gaps, x, gap);
    TakeAllStart(ts);
    StartOf(x, gap);
    FollowClosed(ts, gaps, x);
    Resume(ts, gaps, Spelling(x) + gap);
    ReadOne(TakeAll(ts).p, x, gap, 1 + Lines(ts, gaps));
    StepsAppend(INIT, Join(ts, gaps), Spelling(x) + gap);
  }

  lemma FollowClosed(ts: seq<Lexeme>, gaps: seq<string>, x: Lexeme)
    requires |gaps| == |ts| + 1 && MayFollow(ts, gaps, x)
    ensures Hangs(ts, gaps) ==> x.tok == ValueSeparator || x.tok == EndObject || x.tok == EndArray
    ensures Deep(INIT)
  {
  }

  lemma SpacedLess(ts: seq<Lexeme>, gaps: seq<string>, x: Lexeme, gap: string)
    requires |gaps| == |ts| + 1 && Spaced(ts + [x], gaps + [gap])
    ensures Spaced(ts, gaps) && Spaces(gap) && MayFollow(ts, gaps, x)
  {
    var us, gs := ts + [x], gaps + [gap];
    assert forall i :: 0 <= i < |gaps| ==> gs[i] == gaps[i];
    assert gs[|gaps|] == gap;
    forall i | 0 <= i < |ts| - 1 ensures SetOff(ts, gaps, i) { assert SetOff(us, gs, i); }
    if ts != [] { assert SetOff(us, gs, |ts| - 1); }
  }

  /** Tokens that the parser takes, with gaps between them, are read wherever the gaps are. */
  lemma {:induction false} ReadAll(ts: seq<Lexeme>, gaps: seq<string>)
    requires AllGood(ts) && Spaced(ts, gaps) && TakeAll(ts).Going?
    ensures Steps(INIT, Join(ts, gaps)) == Going(Arrival(ts, gaps))
    decreases |ts|
  {
    hide *;
    SpacedCount(ts, gaps);
    if ts == [] {
      ReadGap(gaps[0]);
      assert gaps == [gaps[0]];
    } else {
      var n := |ts| - 1;
      var before, gs, x, gap := ts[..n], gaps[..n + 1], ts[n], gaps[n + 1];
      TakeAllLast(ts);
      GoodAll(ts);
      assert ts == before + [x] && gaps == gs + [gap];
      SpacedLess(before, gs, x, gap);
      ReadAll(before, gs);
      ReadMore(before, gs, x, gap);
    }
  }

  lemma SpacedCount(ts: seq<Lexeme>, gaps: seq<string>)
    requires Spaced(ts, gaps)
    ensures |gaps| == |ts| + 1 && Spaces(gaps[0])
  {
  }

  lemma GoodAll(ts: seq<Lexeme>)
    requires AllGood(ts) && ts != []
    ensures AllGood(ts[..|ts| - 1]) && Good(ts[|ts| - 1])
  {
  }

  lemma ReadGap(gap: string)
    requires Spaces(gap)
    ensures Steps(INIT, Join([], [gap])) == Going(Arrival([], [gap]))
  {
    EatSpaces(INIT, gap, 1);
    hide Steps, LineEnds;
    assert Lines([], [gap]) == LineEnds(gap);
  }

  lemma TakeAllLast(ts: seq<Lexeme>)
    requires ts != [] && TakeAll(ts).Going?
    ensures var n := |ts| - 1; TakeAll(ts[..n]).Going? && TakeAll(ts) == Take(TakeAll(ts[..n]).p, ts[n])
  {
  }

  // Refusing it

  /** A number that the parser refuses is refused when it ends. */
  lemma NumberRefused(ts: seq<Lexeme>, gaps: seq<string>, x: Lexeme, c: char, rest: string)
    requires |gaps| == |ts| + 1 && AllGood(ts) && Good(x) && x.tok == Number && MayFollow(ts, gaps, x)
    requires TakeAll(ts).Going? && Take(TakeAll(ts).p, x).Failed? && (Spaces([c]) || Closes(c))
    requires Steps(INIT, Join(ts, gaps)) == Going(Arrival(ts, gaps))
    ensures Steps(INIT, Join(ts, gaps) + (x.text + ([c] + rest))) == Failed(Take(TakeAll(ts).p, x).code)
  {
    hide *;
    var p, line := TakeAll(ts).p, 1 + Lines(ts, gaps);
    TakeAllStart(ts);
    NoGap();
    GapParts(x, "");
    FollowClosed(ts, gaps, x);
    NumberStarts(x, [c] + rest);
    Resume(ts, gaps, x.text + ([c] + rest));
    StepsAppend(INIT, Join(ts, gaps), x.text + ([c] + rest));
    OpenedLine(p, line);
    StepsAppend(OnLine(p, line), x.text, [c] + rest);
    ReadFigures(p, x.text, line);
    EndNumber(p, x.text, line, c, rest);
  }

  lemma NoGap()
    ensures Spaces("") && LineEnds("") == 0
  {
  }

  lemma NumberStarts(x: Lexeme, rest: string)
    requires Good(x) && x.tok == Number
    ensures x.text + rest != ""
  {
  }

  lemma LinedFailure(r: Result, line: nat)
    requires r.Failed?
    ensures Lined(r, line) == Failed(r.code)
  {
  }

  /** Any other token is refused where it ends. */
  lemma TokenRefused(ts: seq<Lexeme>, gaps: seq<string>, x: Lexeme, rest: string)
    requires |gaps| == |ts| + 1 && AllGood(ts) && Good(x) && x.tok != Number && MayFollow(ts, gaps, x)
    requires TakeAll(ts).Going? && Take(TakeAll(ts).p, x).Failed?
    requires Steps(INIT, Join(ts, gaps)) == Going(Arrival(ts, gaps))
    ensures Steps(INIT, Join(ts, gaps) + (Spelling(x) + rest)) == Failed(Take(TakeAll(ts).p, x).code)
  {
    hide *;
    var p, line := TakeAll(ts).p, 1 + Lines(ts, gaps);
    TakeAllStart(ts);
    LinedFailure(Take(p, x), line);
    FollowClosed(ts, gaps, x);
    StartOf(x, rest);
    Resume(ts, gaps, Spelling(x) + rest);
    StepsAppend(INIT, Join(ts, gaps), Spelling(x) + rest);
    OpenedLine(p, line);
    StepsAppend(OnLine(p, line), Spelling(x), rest);
    ReadToken(p, x, line);
  }

  /** The text behind a number that stops there. */
  lemma AfterHanging(ts: seq<Lexeme>, gaps: seq<string>, x: Lexeme, gap: string)
    requires |gaps| == |ts| + 1 && Hangs(ts, gaps) && MayFollow(ts, gaps, x) && Good(x)
    ensures var n := |ts| - 1; ts == ts[..n] + [ts[n]] && gaps == gaps[..n + 1] + [""] && ts[n].tok == Number
    ensures var s := Spelling(x) + gap; s != "" && Closes(s[0]) && s == [s[0]] + s[1..]
  {
    StartOf(x, gap);
    hide Spelling, Good;
  }

  lemma NumberIsLast(ts: seq<Lexeme>, gaps: seq<string>, x: Lexeme)
    requires |gaps| == |ts| + 1 && MayFollow(ts, gaps, x) && x.tok == Number
    ensures !Hangs(ts, gaps)
  {
  }

  lemma FailedMore(ts: seq<Lexeme>, x: Lexeme)
    ensures TakeAll(ts).Failed? ==> TakeAll(ts + [x]) == TakeAll(ts)
    ensures TakeAll(ts).Going? ==> TakeAll(ts + [x]) == Take(TakeAll(ts).p, x)
  {
    TakeAllMore(ts, x);
  }

  /** What the tokens are refused for, the text is, unless it stops right behind a number. */
  lemma {:induction false} ReadRefused(ts: seq<Lexeme>, gaps: seq<string>)
    requires AllGood(ts) && Spaced(ts, gaps) && TakeAll(ts).Failed? && !Hangs(ts, gaps)
    ensures Steps(INIT, Join(ts, gaps)) == Failed(TakeAll(ts).code)
    decreases |ts|
  {
    hide *;
    SpacedCount(ts, gaps);
    FailedNotEmpty(ts);
    var n := |ts| - 1;
    var before, gs, x, gap := ts[..n], gaps[..n + 1], ts[n], gaps[n + 1];
    assert ts == before + [x] && gaps == gs + [gap];
    GoodAll(ts);
    SpacedLess(before, gs, x, gap);
    FailedMore(before, x);
    JoinMore(before, gs, x, gap);
    FollowClosed(before, gs, x);
    if TakeAll(before).Going? {
      ReadAll(before, gs);
      RefusedLast(before, gs, x, gap);
    } else if Hangs(before, gs) {
      AfterHanging(before, gs, x, gap);
      var b, g, y, s := before[..n - 1], gs[..n], before[n - 1], Spelling(x) + gap;
      GoodAll(before);
      SpacedLess(b, g, y, "");
      NumberIsLast(b, g, y);
      FailedMore(b, y);
      JoinMore(b, g, y, "");
      GapParts(y, "");
      Assoc(Join(b, g), y.text, s);
      assert y.text + "" == y.text;
      if TakeAll(b).Failed? {
        ReadRefused(b, g);
        StepsAppend(INIT, Join(b, g), y.text + s);
      } else {
        ReadAll(b, g);
        NumberRefused(b, g, y, s[0], s[1..]);
      }
    } else {
      ReadRefused(before, gs);
      StepsAppend(INIT, Join(before, gs), Spelling(x) + gap);
    }
  }

  lemma FailedNotEmpty(ts: seq<Lexeme>)
    requires TakeAll(ts).Failed?
    ensures ts != []
  {
  }

  lemma RefusedLast(ts: seq<Lexeme>, gaps: seq<string>, x: Lexeme, gap: string)
    requires |gaps| == |ts| + 1 && AllGood(ts) && Good(x) && MayFollow(ts, gaps, x) && Spaces(gap)
    requires TakeAll(ts).Going? && Take(TakeAll(ts).p, x).Failed? && !Hangs(ts + [x], gaps + [gap])
    requires Steps(INIT, Join(ts, gaps)) == Going(Arrival(ts, gaps))
    ensures Steps(INIT, Join(ts, gaps) + (Spelling(x) + gap)) == Failed(Take(TakeAll(ts).p, x).code)
  {
    hide *;
    if x.tok == Number {
      GapParts(x, gap);
      NotHanging(ts, gaps, x, gap);
      NumberRefused(ts, gaps, x, gap[0], gap[1..]);
    } else {
      TokenRefused(ts, gaps, x, gap);
    }
  }

  lemma NotHanging(ts: seq<Lexeme>, gaps: seq<string>, x: Lexeme, gap: string)
    requires |gaps| == |ts| + 1
    ensures Hangs(ts + [x], gaps + [gap]) <==> x.tok == Number && gap == ""
  {
  }
}
