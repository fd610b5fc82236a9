/** The other direction: what the parser accepts is a document of the grammar; and what follows from both. */
module JsonAccepted {
  import opened JsonGrammar
  import opened JsonLexer
  import opened JsonParser
  import opened JsonFragments
  import opened JsonTrees
  import opened JsonPrint
  import opened JsonTokens
  import opened JsonLanguage

  // What has been read so far

  function WordPart(state: nat): string {
    if state == 7 then "t" else if state == 8 then "tr" else if state == 9 then "tru"
    else if state == 10 then "f" else if state == 11 then "fa" else if state == 12 then "fal"
    else if state == 13 then "fals" else if state == 14 then "n" else if state == 15 then "nu" else "nul"
  }

  /** The characters of a token that has begun but is not complete. */
  predicate Part(l: Lex, part: string) {
    if l.state == 0 then part == "" && l.text == ""
    else if l.state <= 6 then part == "\"" + l.text && StringState(l.text) == l.state
    else if l.state <= 16 then part == WordPart(l.state) && l.text == ""
    else l.state <= 24 && part == l.text && NumberState(l.text) == l.state
  }

  /** The parser is in the middle of the text that the tokens make. */
  ghost predicate Reading(p: Parser, ts: seq<Lexeme>, gaps: seq<string>) {
    && AllGood(ts) && Spaced(ts, gaps) && TakeAll(ts).Going?
    && Opened(p) == Opened(TakeAll(ts).p).(lex := p.lex) && p.lex.line == 1 + Lines(ts, gaps)
  }

  ghost predicate Read(s: string, p: Parser, ts: seq<Lexeme>, gaps: seq<string>, part: string) {
    Reading(p, ts, gaps) && !Hangs(ts, gaps) && s == Join(ts, gaps) + part && Part(p.lex, part)
  }

  // A wider gap, and another token

  lemma JoinWider(ts: seq<Lexeme>, gs: seq<string>, gap: string, c: char)
    requires |gs| == |ts|
    ensures Join(ts, gs + [gap + [c]]) == Join(ts, gs + [gap]) + [c]
  {
    hide Spelling;
    if ts == [] {
      assert gs == [];
    } else {
      var n := |ts| - 1;
      assert (gs + [gap])[..n + 1] == gs && (gs + [gap + [c]])[..n + 1] == gs;
      Assoc(Join(ts[..n], gs) + Spelling(ts[n]), gap, [c]);
    }
  }

  lemma LineEndsMore(s: string, c: char)
    ensures LineEnds(s + [c]) == LineEnds(s) + if LineEnd(c) then 1 else 0
  {
    assert (s + [c])[..|s|] == s;
  }

  lemma LinesWider(ts: seq<Lexeme>, gs: seq<string>, gap: string, c: char)
    requires |gs| == |ts| && !Hangs(ts, gs + [gap])
    ensures Lines(ts, gs + [gap + [c]]) == Lines(ts, gs + [gap]) + if LineEnd(c) then 1 else 0
  {
    if ts == [] {
      assert gs == [];
      LineEndsMore(gap, c);
    } else {
      var n := |ts| - 1;
      assert ts == ts[..n] + [ts[n]];
      CountedMore(ts[n], gap, c, |gs| == |ts| && Hangs(ts, gs + [gap]));
      hide *;
      LinesMore(ts[..n], gs, ts[n], gap);
      LinesMore(ts[..n], gs, ts[n], gap + [c]);
      LineEndsMore(Counted(ts[n], gap), c);
    }
  }

  lemma CountedMore(x: Lexeme, gap: string, c: char, hangs: bool)
    requires !hangs && (x.tok == Number && gap == "" ==> hangs)
    ensures Counted(x, gap + [c]) == Counted(x, gap) + [c]
  {
    assert gap != "" ==> (gap + [c])[1..] == gap[1..] + [c];
  }

  lemma SpacedWider(ts: seq<Lexeme>, gs: seq<string>, gap: string, c: char)
    requires |gs| == |ts| && Spaced(ts, gs + [gap]) && Spaces([c])
    ensures Spaced(ts, gs + [gap + [c]])
  {
    var a, b := gs + [gap], gs + [gap + [c]];
    assert Spaces(a[|gs|]) && [c][0] == c;
    forall i | 0 <= i < |b| ensures Spaces(b[i]) {
      if i < |gs| { assert b[i] == a[i]; }
    }
    forall i | 0 <= i < |ts| - 1 ensures SetOff(ts, b, i) { assert SetOff(ts, a, i); }
  }

  lemma SpacedMore(ts: seq<Lexeme>, gaps: seq<string>, x: Lexeme, gap: string)
    requires |gaps| == |ts| + 1 && Spaced(ts, gaps) && Spaces(gap) && MayFollow(ts, gaps, x)
    ensures Spaced(ts + [x], gaps + [gap])
  {
    var us, gs := ts + [x], gaps + [gap];
    forall i | 0 <= i < |gs| ensures Spaces(gs[i]) {
      if i < |gaps| { assert gs[i] == gaps[i]; }
    }
    forall i | 0 <= i < |us| - 1 ensures SetOff(us, gs, i) {
      if i < |ts| - 1 { assert SetOff(ts, gaps, i); }
    }
  }

  lemma GoodMore(ts: seq<Lexeme>, x: Lexeme)
    requires AllGood(ts) && Good(x)
    ensures AllGood(ts + [x])
  {
    hide Good;
  }

  /** A token is complete, and the parser has taken it; a blank that ended it is not counted. */
  lemma Completed(p: Parser, ts: seq<Lexeme>, gaps: seq<string>, x: Lexeme, gap: string)
    requires Reading(p, ts, gaps) && Good(x) && Deep(Opened(p)) && Spaces(gap) && LineEnds(Counted(x, gap)) == 0
    requires |gaps| == |ts| + 1 && MayFollow(ts, gaps, x)
    requires Deliver(Opened(p).(lex := Lex(0, x.text, p.lex.line)), x.tok).Going?
    ensures var q := Deliver(Opened(p).(lex := Lex(0, x.text, p.lex.line)), x.tok).p;
      Deep(q) && q == OnLine(q, p.lex.line) && Reading(q, ts + [x], gaps + [gap])
  {
    var o, line := Opened(TakeAll(ts).p), p.lex.line;
    TakeAllStart(ts);
    TakeAllMore(ts, x);
    DeliverLine(o, x.text, x.tok, line);
    DeliverDeep(o.(lex := Lex(0, x.text, line)), x.tok);
    SpacedMore(ts, gaps, x, gap);
    GoodMore(ts, x);
    LinesMore(ts, gaps, x, gap);
    OpenedLine(Take(TakeAll(ts).p, x).p, line);
    hide *;
  }

  // One character

  /** A character that the lexer keeps belongs to the token. */
  lemma PartEat(l: Lex, part: string, c: char)
    requires Part(l, part) && LexChar(l, c).Eat? && !(l.state == 0 && Spaces([c]))
    ensures Part(LexChar(l, c).l, part + [c]) && LexChar(l, c).l.line == l.line
  {
    if l.state == 0 {
      assert Blank(c) ==> Spaces([c]);
      RootPart(l, c);
    } else if l.state <= 6 {
      StringPart(l, part, c);
    } else if l.state <= 16 {
      WordMore(l.state, c);
      hide WordPart, WordNext;
    } else {
      NumberPart(l, c);
    }
  }

  lemma StringPart(l: Lex, part: string, c: char)
    requires 1 <= l.state <= 6 && Part(l, part) && InString(l, c).Eat?
    ensures Part(InString(l, c).l, part + [c]) && InString(l, c).l.line == l.line
  {
    StringOne(l.text, c);
    StringStates(l.text + [c]);
    hide StringNext, StringState;
    Assoc("\"", l.text, [c]);
  }

  lemma StringOne(t: string, c: char)
    ensures StringState(t + [c]) == if StringState(t) == 0 then 0 else StringNext(StringState(t), c)
  {
    assert (t + [c])[..|t|] == t;
  }

  lemma NumberPart(l: Lex, c: char)
    requires 17 <= l.state <= 24 && NumberState(l.text) == l.state && InNumber(l, c).Eat?
    ensures Part(InNumber(l, c).l, l.text + [c]) && InNumber(l, c).l.line == l.line
  {
    assert l.text != "";
    NumberOne(l.text, c);
    NumberStates(l.text + [c]);
    hide NumberNext, NumberState;
  }

  lemma RootPart(l: Lex, c: char)
    requires l.state == 0 && l.text == "" && Root(l, c).Eat? && !Blank(c)
    ensures Part(Root(l, c).l, [c]) && Root(l, c).l.line == l.line
  {
    assert [c][..0] == "";
  }

  lemma WordMore(state: nat, c: char)
    requires 7 <= state <= 16 && WordNext(state).0 == c && WordNext(state).1 == More
    ensures 8 <= state + 1 <= 16 && WordPart(state + 1) == WordPart(state) + [c]
  {
  }

  lemma WordLast(state: nat, c: char)
    requires 7 <= state <= 16 && WordNext(state).0 == c && WordNext(state).1 != More
    ensures Good(Sign(WordNext(state).1)) && Spelling(Sign(WordNext(state).1)) == WordPart(state) + [c]
  {
  }

  lemma MarkSpelling(c: char)
    requires Mark(c) != Invalid
    ensures Good(Sign(Mark(c))) && Spelling(Sign(Mark(c))) == [c] && Mark(c) != Number
    ensures Closes(c) <==> Mark(c) == ValueSeparator || Mark(c) == EndObject || Mark(c) == EndArray
  {
  }

  /** The token that a character completes. */
  lemma PartEmit(l: Lex, part: string, c: char)
    requires Part(l, part) && LexChar(l, c).Emit? && LexChar(l, c).tok != Invalid
    ensures var r := LexChar(l, c);
      var x := Lexeme(r.tok, r.l.text);
      && r.l == Lex(0, x.text, l.line) && Good(x)
      && (if x.tok == Number then Spelling(x) == part && (if r.eaten then Spaces([c]) else Closes(c))
          else r.eaten && Spelling(x) == part + [c])
  {
    if l.state == 0 {
      MarkSpelling(c);
    } else if l.state <= 6 {
    } else if l.state <= 16 {
      WordLast(l.state, c);
    } else {
      NumberStates(l.text);
    }
  }

  /** A character inside a token, or its first. */
  lemma ReadEat(s: string, p: Parser, ts: seq<Lexeme>, gaps: seq<string>, part: string, c: char)
    requires Read(s, p, ts, gaps, part) && LexChar(p.lex, c).Eat? && !(p.lex.state == 0 && Spaces([c])) && Deep(p)
    ensures StepChar(p, c).Going? && Read(s + [c], StepChar(p, c).p, ts, gaps, part + [c])
  {
    PartEat(p.lex, part, c);
    Assoc(Join(ts, gaps), part, [c]);
    StepEats(p, c);
    hide Part, Join, Lines, TakeAll, StepChar, LexChar, Good, Spaced, Hangs;
  }

  lemma StepEats(p: Parser, c: char)
    requires Deep(p) && LexChar(p.lex, c).Eat?
    ensures var q := Opened(p).(lex := LexChar(p.lex, c).l); StepChar(p, c) == Going(q) && Opened(q) == q
    ensures Opened(Opened(p)) == Opened(p)
  {
  }

  /** A blank between tokens. */
  lemma ReadBlank(s: string, p: Parser, ts: seq<Lexeme>, gs: seq<string>, gap: string, part: string, c: char)
    requires |gs| == |ts| && Read(s, p, ts, gs + [gap], part) && p.lex.state == 0 && Spaces([c]) && Deep(p)
    ensures StepChar(p, c).Going? && Read(s + [c], StepChar(p, c).p, ts, gs + [gap + [c]], "")
  {
    hide *;
    BlankEats(p.lex, c);
    StepEats(p, c);
    BlankAfter(s, p, ts, gs + [gap], part);
    JoinWider(ts, gs, gap, c);
    LinesWider(ts, gs, gap, c);
    SpacedWider(ts, gs, gap, c);
    StillSetOff(ts, gs, gap, c);
    BlankRead(s, StepChar(p, c).p, ts, gs + [gap], gs + [gap + [c]], c);
  }

  lemma BlankAfter(s: string, p: Parser, ts: seq<Lexeme>, gaps: seq<string>, part: string)
    requires Read(s, p, ts, gaps, part) && p.lex.state == 0
    ensures |gaps| == |ts| + 1 && Spaced(ts, gaps) && !Hangs(ts, gaps) && s == Join(ts, gaps)
    ensures AllGood(ts) && TakeAll(ts).Going? && p.lex == Lex(0, "", 1 + Lines(ts, gaps))
    ensures Opened(p) == Opened(TakeAll(ts).p).(lex := p.lex)
  {
    hide Join, Lines, TakeAll, Good, Hangs;
  }

  lemma BlankRead(s: string, q: Parser, ts: seq<Lexeme>, gaps: seq<string>, wider: seq<string>, c: char)
    requires |gaps| == |ts| + 1 && s == Join(ts, gaps) && AllGood(ts) && TakeAll(ts).Going?
    requires Spaced(ts, wider) && !Hangs(ts, wider) && Join(ts, wider) == s + [c]
    requires Lines(ts, wider) == Lines(ts, gaps) + if LineEnd(c) then 1 else 0
    requires Opened(q) == q == Opened(TakeAll(ts).p).(lex := q.lex)
    requires q.lex == Lex(0, "", 1 + Lines(ts, gaps) + if LineEnd(c) then 1 else 0)
    ensures Read(s + [c], q, ts, wider, "")
  {
    hide Join, Lines, TakeAll, Good, Hangs, Opened;
    assert s + [c] + "" == s + [c];
  }

  lemma BlankEats(l: Lex, c: char)
    requires l.state == 0 && Spaces([c])
    ensures LexChar(l, c) == Eat(l.(line := l.line + if LineEnd(c) then 1 else 0))
  {
    assert [c][0] == c;
  }

  lemma StillSetOff(ts: seq<Lexeme>, gs: seq<string>, gap: string, c: char)
    requires |gs| == |ts|
    ensures !Hangs(ts, gs + [gap + [c]])
  {
  }

  lemma StepEmits(p: Parser, c: char)
    requires Deep(p) && LexChar(p.lex, c).Emit?
    ensures var r := LexChar(p.lex, c);
      && Deep(Opened(p).(lex := r.l))
      && (StepChar(p, c).Going? ==> r.tok != Invalid && Deliver(Opened(p).(lex := r.l), r.tok).Going?)
      && (var d := Deliver(Opened(p).(lex := r.l), r.tok);
          d.Going? ==> Deep(d.p) && StepChar(p, c) == if r.eaten then d else StepChar(d.p, c))
    ensures Deep(Opened(p))
  {
    var r := LexChar(p.lex, c);
    DeliverDeep(Opened(p).(lex := r.l), r.tok);
    CharRank(p.lex, c);
  }

  lemma MayFollowAny(ts: seq<Lexeme>, gaps: seq<string>, x: Lexeme)
    requires |gaps| == |ts| + 1 && !Hangs(ts, gaps)
    ensures MayFollow(ts, gaps, x)
  {
  }

  lemma ReadingCount(p: Parser, ts: seq<Lexeme>, gaps: seq<string>)
    requires Reading(p, ts, gaps)
    ensures |gaps| == |ts| + 1
  {
  }

  lemma EmptyPart(q: Parser, line: nat)
    requires q == OnLine(q, line)
    ensures Part(q.lex, "") && q.lex == Lex(0, "", line) && Spaces("") && LineEnds("") == 0
  {
  }

  lemma CountedOther(x: Lexeme)
    ensures Counted(x, "") == ""
    ensures forall c: char :: x.tok == Number ==> Counted(x, [c]) == ""
  {
    assert forall c: char :: [c][1..] == "";
  }

  /** A character that completes any token but a number. */
  lemma ReadLast(s: string, p: Parser, ts: seq<Lexeme>, gaps: seq<string>, part: string, c: char, x: Lexeme)
    requires Deep(p) && Reading(p, ts, gaps) && |gaps| == |ts| + 1 && MayFollow(ts, gaps, x)
    requires s == Join(ts, gaps) + part && Good(x) && x.tok != Number && Spelling(x) == part + [c]
    requires LexChar(p.lex, c) == Emit(x.tok, Lex(0, x.text, p.lex.line), true) && StepChar(p, c).Going?
    ensures Read(s + [c], StepChar(p, c).p, ts + [x], gaps + [""], "")
  {
    StepEmits(p, c);
    var q := Deliver(Opened(p).(lex := Lex(0, x.text, p.lex.line)), x.tok).p;
    EmptyPart(OnLine(q, p.lex.line), p.lex.line);
    CountedOther(x);
    Completed(p, ts, gaps, x, "");
    JoinMore(ts, gaps, x, "");
    NotHanging(ts, gaps, x, "");
    Assoc(Join(ts, gaps), part, [c]);
    hide LexChar, StepChar, Spaces, LineEnds, Counted, Hangs, Join, Reading, Part, Good, Spelling, MayFollow, OnLine,
        Deep;
    assert part + [c] + "" == part + [c] && s + [c] + "" == s + [c];
  }

  /** A blank right behind a number. */
  lemma ReadNumberBlank(s: string, p: Parser, ts: seq<Lexeme>, gaps: seq<string>, c: char, x: Lexeme)
    requires Deep(p) && Reading(p, ts, gaps) && |gaps| == |ts| + 1 && !Hangs(ts, gaps)
    requires s == Join(ts, gaps) + Spelling(x) && Good(x) && x.tok == Number && Spaces([c])
    requires LexChar(p.lex, c) == Emit(Number, Lex(0, x.text, p.lex.line), true) && StepChar(p, c).Going?
    ensures Read(s + [c], StepChar(p, c).p, ts + [x], gaps + [[c]], "")
  {
    StepEmits(p, c);
    var q := Deliver(Opened(p).(lex := Lex(0, x.text, p.lex.line)), x.tok).p;
    EmptyPart(OnLine(q, p.lex.line), p.lex.line);
    CountedOther(x);
    MayFollowAny(ts, gaps, x);
    Completed(p, ts, gaps, x, [c]);
    JoinMore(ts, gaps, x, [c]);
    NotHanging(ts, gaps, x, [c]);
    Assoc(Join(ts, gaps), Spelling(x), [c]);
    hide LexChar, StepChar, Spaces, LineEnds, Counted, Hangs, Join, Reading, Part, Good, Spelling, MayFollow, OnLine,
        Deep;
    assert s + [c] + "" == s + [c];
  }

  /** A number has ended, and what ended it is still to be read. */
  lemma NumberEnded(s: string, p: Parser, ts: seq<Lexeme>, gaps: seq<string>, c: char, x: Lexeme) returns (q: Parser)
    requires Deep(p) && Reading(p, ts, gaps) && |gaps| == |ts| + 1 && !Hangs(ts, gaps)
    requires s == Join(ts, gaps) + Spelling(x) && Good(x) && x.tok == Number
    requires LexChar(p.lex, c) == Emit(Number, Lex(0, x.text, p.lex.line), false) && StepChar(p, c).Going?
    ensures Deep(q) && q == OnLine(q, p.lex.line) && Reading(q, ts + [x], gaps + [""])
    ensures StepChar(q, c) == StepChar(p, c) && Join(ts + [x], gaps + [""]) == s
  {
    hide *;
    StepEmits(p, c);
    NoGap();
    CountedOther(x);
    MayFollowAny(ts, gaps, x);
    q := Deliver(Opened(p).(lex := Lex(0, x.text, p.lex.line)), x.tok).p;
    Completed(p, ts, gaps, x, "");
    JoinMore(ts, gaps, x, "");
    assert Spelling(x) + "" == Spelling(x);
  }

  /** A comma or a closing bracket right behind a number ends it, and is a token itself. */
  lemma ReadNumberMark(s: string, p: Parser, ts: seq<Lexeme>, gaps: seq<string>, c: char, x: Lexeme)
    requires Deep(p) && Reading(p, ts, gaps) && |gaps| == |ts| + 1 && !Hangs(ts, gaps)
    requires s == Join(ts, gaps) + Spelling(x) && Good(x) && x.tok == Number && Closes(c)
    requires LexChar(p.lex, c) == Emit(Number, Lex(0, x.text, p.lex.line), false) && StepChar(p, c).Going?
    ensures Read(s + [c], StepChar(p, c).p, ts + [x] + [Sign(Mark(c))], gaps + [""] + [""], "")
  {
    hide *;
    var q := NumberEnded(s, p, ts, gaps, c, x);
    ReadMarkAfter(s, q, ts + [x], gaps + [""], p.lex.line, c);
  }

  lemma ReadMarkAfter(s: string, q: Parser, ts: seq<Lexeme>, gaps: seq<string>, line: nat, c: char)
    requires Deep(q) && q == OnLine(q, line) && Reading(q, ts, gaps) && |gaps| == |ts| + 1 && Join(ts, gaps) == s
    requires Closes(c) && StepChar(q, c).Going?
    ensures Read(s + [c], StepChar(q, c).p, ts + [Sign(Mark(c))], gaps + [""], "")
  {
    hide *;
    ClosesMark(q, ts, gaps, line, c);
    assert s + "" == s;
    ReadLast(s, q, ts, gaps, "", c, Sign(Mark(c)));
  }

  lemma ClosesMark(q: Parser, ts: seq<Lexeme>, gaps: seq<string>, line: nat, c: char)
    requires |gaps| == |ts| + 1 && Closes(c) && q == OnLine(q, line)
    ensures Mark(c) != Invalid && Mark(c) != Number && Good(Sign(Mark(c))) && Spelling(Sign(Mark(c))) == [c] == "" + [c]
    ensures LexChar(q.lex, c) == Emit(Mark(c), Lex(0, "", line), true) && q.lex.line == line
    ensures MayFollow(ts, gaps, Sign(Mark(c))) && Sign(Mark(c)) == Lexeme(Mark(c), "")
  {
    hide Hangs;
  }

  /** Every character that the parser takes belongs somewhere. */
  lemma ReadStep(s: string, p: Parser, ts: seq<Lexeme>, gaps: seq<string>, part: string, c: char)
      returns (us: seq<Lexeme>, gs: seq<string>, rest: string)
    requires Deep(p) && Read(s, p, ts, gaps, part) && StepChar(p, c).Going?
    ensures Read(s + [c], StepChar(p, c).p, us, gs, rest)
  {
    hide *;
    ReadParts(s, p, ts, gaps, part);
    var r := LexChar(p.lex, c);
    if r.Eat? {
      us := ts;
      if p.lex.state == 0 && Spaces([c]) {
        var n := |ts|;
        assert gaps == gaps[..n] + [gaps[n]];
        ReadBlank(s, p, ts, gaps[..n], gaps[n], part, c);
        gs, rest := gaps[..n] + [gaps[n] + [c]], "";
      } else {
        ReadEat(s, p, ts, gaps, part, c);
        gs, rest := gaps, part + [c];
      }
    } else {
      StepEmits(p, c);
      PartEmit(p.lex, part, c);
      var x := Lexeme(r.tok, r.l.text);
      if x.tok != Number {
        MayFollowAny(ts, gaps, x);
        ReadLast(s, p, ts, gaps, part, c, x);
        us, gs, rest := ts + [x], gaps + [""], "";
      } else if r.eaten {
        ReadNumberBlank(s, p, ts, gaps, c, x);
        us, gs, rest := ts + [x], gaps + [[c]], "";
      } else {
        ReadNumberMark(s, p, ts, gaps, c, x);
        us, gs, rest := ts + [x] + [Sign(Mark(c))], gaps + [""] + [""], "";
      }
    }
  }

  lemma ReadParts(s: string, p: Parser, ts: seq<Lexeme>, gaps: seq<string>, part: string)
    requires Read(s, p, ts, gaps, part)
    ensures |gaps| == |ts| + 1 && Reading(p, ts, gaps) && !Hangs(ts, gaps) && s == Join(ts, gaps) + part
    ensures Part(p.lex, part)
  {
    hide Join, Hangs, Part, Good, TakeAll, Lines;
  }

  lemma ReadNothing()
    ensures Read("", INIT, [], [""], "")
  {
    assert Spaced([], [""]) && Join([], [""]) == "";
    assert Lines([], [""]) == 0 && TakeAll([]) == Going(INIT);
  }

  /** Whatever the parser has taken without refusing it, is tokens with gaps between them, and part of one more. */
  lemma {:induction false} ReadBack(s: string) returns (ts: seq<Lexeme>, gaps: seq<string>, part: string)
    requires Deep(INIT) && Steps(INIT, s).Going?
    ensures Read(s, Steps(INIT, s).p, ts, gaps, part)
    decreases |s|
  {
    if s == "" {
      ts, gaps, part := [], [""], "";
      ReadNothing();
    } else {
      var n := |s| - 1;
      var t, c := s[..n], s[n];
      assert s == t + [c];
      StepsAppend(INIT, t, [c]);
      hide Read, StepChar;
      ts, gaps, part := ReadBack(t);
      var p := Steps(INIT, t).p;
      assert [c][1..] == "";
      assert Steps(p, [c]) == StepChar(p, c);
      ts, gaps, part := ReadStep(t, p, ts, gaps, part, c);
    }
  }
}
