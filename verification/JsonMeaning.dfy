/** Exactly which texts are documents, what they mean, and what the parser makes of all others. */
module JsonMeaning {
  import opened JsonGrammar
  import opened JsonLexer
  import opened JsonParser
  import opened JsonFragments
  import opened JsonTrees
  import opened JsonPrint
  import opened JsonTokens
  import opened JsonLanguage
  import opened JsonAccepted

  /** The text of a string or number is one that the grammar has. */
  ghost predicate Lexical(ts: seq<Lexeme>) {
    forall i :: 0 <= i < |ts| ==>
      Plain(ts[i]) && (ts[i].tok == Text ==> IsText(ts[i].text)) && (ts[i].tok == Number ==> IsNumber(ts[i].text))
  }

  /** The text is made of tokens with blanks between them, and they are those of the tree, but for spare commas. */
  ghost predicate Document(s: string, j: Json, ts: seq<Lexeme>, gaps: seq<string>) {
    && Value(j) && j.kind == OBJECT
    && Lexical(ts) && Spaced(ts, gaps) && s == Join(ts, gaps) && Prune(ts) == Tokens(j)
  }

  /** And it ends on that line. */
  ghost predicate DocumentOn(s: string, j: Json, line: nat, ts: seq<Lexeme>, gaps: seq<string>) {
    Document(s, j, ts, gaps) && line == 1 + Lines(ts, gaps)
  }

  lemma LexicalGood(ts: seq<Lexeme>)
    ensures Lexical(ts) <==> AllGood(ts)
  {
    forall i | 0 <= i < |ts| ensures (ts[i].tok == Text ==> (IsText(ts[i].text) <==> StringText(ts[i].text)))
        && (ts[i].tok == Number ==> (IsNumber(ts[i].text) <==> NumberText(ts[i].text)))
    {
      TextByGrammar(ts[i].text);
      NumberByGrammar(ts[i].text);
    }
    hide IsText, StringText, IsNumber, NumberText;
  }

  /** The parser at the end of a document. */
  function Ended(j: Json, line: nat): Parser {
    Parser(99, Lex(0, "", line), [j])
  }

  lemma FeedEnded(s: string, j: Json, line: nat)
    ensures Deep(INIT)
    ensures Feed(INIT, s) == Fed(Ended(j, line), WaitingForEof) <==> Steps(INIT, s) == Going(Ended(j, line))
  {
    FeedIsSteps(INIT, s);
  }

  /** What has been read at the end of a document. */
  lemma EndedTokens(s: string, j: Json, line: nat) returns (ts: seq<Lexeme>, gaps: seq<string>)
    requires Deep(INIT) && Steps(INIT, s) == Going(Ended(j, line))
    ensures AllGood(ts) && Spaced(ts, gaps) && s == Join(ts, gaps) && line == 1 + Lines(ts, gaps)
    ensures TakeAll(ts) == Going(Ended(j, 1)) && Prune(ts) == Tokens(j)
  {
    var part;
    ts, gaps, part := ReadBack(s);
    EndedRead(s, j, line, ts, gaps, part);
    TokensTold(ts);
    hide TakeAll, Join, Lines, Prune, Tokens, Spaced, Good;
  }

  lemma EndedRead(s: string, j: Json, line: nat, ts: seq<Lexeme>, gaps: seq<string>, part: string)
    requires Read(s, Ended(j, line), ts, gaps, part)
    ensures AllGood(ts) && Spaced(ts, gaps) && s == Join(ts, gaps) && line == 1 + Lines(ts, gaps)
    ensures TakeAll(ts) == Going(Ended(j, 1))
  {
    TakeAllStart(ts);
    hide TakeAll, Join, Lines, Spaced, Good, Hangs;
    assert Join(ts, gaps) + part == Join(ts, gaps);
  }

  /** The tokens of a tree, taken one after another, give the tree. */
  lemma TokensTaken(j: Json)
    requires Value(j) && j.kind == OBJECT
    ensures TakeAll(Tokens(j)) == Going(Ended(j, 1))
  {
    RoundTrip(j);
    FeedEnded(Print(j, false), j, 1);
    hide *;
    StartIs(j);
    var ts, gaps := EndedTokens(Print(j, false), j, 1);
    PruneSame(ts);
    EndedGoing(ts, j);
  }

  lemma StartIs(j: Json)
    ensures Ended(j, 1) == Parser(99, START, [j])
  {
  }

  lemma EndedGoing(ts: seq<Lexeme>, j: Json)
    requires TakeAll(ts) == Going(Ended(j, 1))
    ensures TakeAll(ts).Going?
  {
  }

  /** Such tokens leave the parser at the end of the tree, and the last of them is the closing brace. */
  lemma DocumentTaken(ts: seq<Lexeme>, j: Json)
    requires AllGood(ts) && Value(j) && j.kind == OBJECT && Prune(ts) == Tokens(j)
    ensures TakeAll(ts) == Going(Ended(j, 1)) && ts != [] && ts[|ts| - 1] == Sign(EndObject)
  {
    TokensTaken(j);
    PruneSame(ts);
    TokensOfContainer(j);
    assert ts != [];
    PruneLast(ts);
    hide TakeAll, Tokens, Good, Value;
  }

  lemma DocumentArrival(ts: seq<Lexeme>, gaps: seq<string>, j: Json)
    requires |gaps| == |ts| + 1 && ts != [] && ts[|ts| - 1] == Sign(EndObject) && TakeAll(ts) == Going(Ended(j, 1))
    ensures Arrival(ts, gaps) == Ended(j, 1 + Lines(ts, gaps))
  {
    hide TakeAll, Lines;
  }

  /** Exactly the texts of the grammar are accepted, each with its tree, on the line that the gaps tell. */
  lemma Accepted(s: string, j: Json, line: nat)
    ensures Feed(INIT, s) == Fed(Ended(j, line), WaitingForEof) <==>
      exists ts, gaps :: DocumentOn(s, j, line, ts, gaps)
  {
    hide *;
    FeedEnded(s, j, line);
    if Steps(INIT, s) == Going(Ended(j, line)) {
      var ts, gaps := DocumentOf(s, j, line);
      assert DocumentOn(s, j, line, ts, gaps);
    }
    if ts, gaps :| DocumentOn(s, j, line, ts, gaps) {
      DocumentRead(s, j, line, ts, gaps);
    }
  }

  lemma DocumentOf(s: string, j: Json, line: nat) returns (ts: seq<Lexeme>, gaps: seq<string>)
    requires Deep(INIT) && Steps(INIT, s) == Going(Ended(j, line))
    ensures DocumentOn(s, j, line, ts, gaps)
  {
    Finished(s);
    ts, gaps := EndedTokens(s, j, line);
    LexicalGood(ts);
    hide Steps, Lexical, AllGood, Join, Lines, Prune, Tokens, Value, TakeAll;
  }

  lemma DocumentRead(s: string, j: Json, line: nat, ts: seq<Lexeme>, gaps: seq<string>)
    requires DocumentOn(s, j, line, ts, gaps)
    ensures Deep(INIT) && Steps(INIT, s) == Going(Ended(j, line))
  {
    LexicalGood(ts);
    DocumentTaken(ts, j);
    DocumentArrival(ts, gaps, j);
    ReadAll(ts, gaps);
    hide Steps, Join, Lines, Spaced, Lexical, TakeAll;
  }

  // Blanks

  /** The outcome without the line, and with the last bracket opened. */
  function Outcome(f: Fed): Fed {
    match f
    case Rejected(code) => Rejected(code)
    case Fed(p, code) => Fed(Opened(p).(lex := START), code)
  }

  /** The outcome of the tokens alone. */
  function TokenOutcome(ts: seq<Lexeme>): Fed {
    match TakeAll(ts)
    case Failed(code) => Rejected(code)
    case Going(p) => Fed(Opened(p), EndCode(p.state))
  }

  lemma ArrivalOutcome(ts: seq<Lexeme>, gaps: seq<string>)
    requires |gaps| == |ts| + 1 && TakeAll(ts).Going? && !Hangs(ts, gaps) && TakeAll(ts).p.lex == START
    ensures var q := Arrival(ts, gaps);
      && Opened(q).(lex := START) == Opened(TakeAll(ts).p) && EndCode(q.state) == EndCode(TakeAll(ts).p.state)
      && q.lex == Lex(0, "", 1 + Lines(ts, gaps)) && (q.state == 0 ==> TakeAll(ts).p.state == 0)
  {
    hide TakeAll, Lines, Hangs;
  }

  lemma {:induction false} FirstTaken(ts: seq<Lexeme>)
    requires ts != [] && TakeAll(ts).Going?
    ensures TakeAll(ts).p.state != 0
  {
    var n := |ts| - 1;
    TakeAllLast(ts);
    var o := Opened(TakeAll(ts[..n]).p).(lex := Lex(0, ts[n].text, 1));
    assert Deep(o) by { OpenedLine(TakeAll(ts[..n]).p, 1); }
    DeliverState(o, ts[n].tok);
    hide TakeAll;
  }

  /** What the tokens lead to, the text does, wherever the blanks are: the same tree, or the same refusal. Only the
      line is told by the blanks. */
  lemma BlanksDoNotMatter(ts: seq<Lexeme>, gaps: seq<string>)
    requires Lexical(ts) && Spaced(ts, gaps) && ts != [] && !Hangs(ts, gaps)
    ensures Deep(INIT) && var f := Feed(INIT, Join(ts, gaps));
      Outcome(f) == TokenOutcome(ts) && (f.Fed? ==> f.p.lex == Lex(0, "", 1 + Lines(ts, gaps)))
  {
    LexicalGood(ts);
    FeedIsSteps(INIT, Join(ts, gaps));
    if TakeAll(ts).Going? {
      ReadAll(ts, gaps);
      TakeAllStart(ts);
      ArrivalOutcome(ts, gaps);
      FirstTaken(ts);
    } else {
      ReadRefused(ts, gaps);
    }
    hide Feed, Steps, TakeAll, Join, Lines, Arrival, Spaced, Lexical, Hangs, Opened;
  }

  // Lines

  lemma {:induction false} LineEndsSum(a: string, b: string)
    ensures LineEnds(a + b) == LineEnds(a) + LineEnds(b)
    decreases |b|
  {
    if b == "" {
      assert a + b == a;
    } else {
      var n := |b| - 1;
      LineEndsSum(a, b[..n]);
      assert b == b[..n] + [b[n]] && a + b == (a + b[..n]) + [b[n]];
      LineEndsMore(a + b[..n], b[n]);
      LineEndsMore(b[..n], b[n]);
    }
  }

  lemma {:induction false} NoLineEnds(s: string)
    requires forall i :: 0 <= i < |s| ==> !LineEnd(s[i])
    ensures LineEnds(s) == 0
    decreases |s|
  {
    if s != "" { NoLineEnds(s[..|s| - 1]); }
  }

  lemma {:induction false} TextControls(t: string)
    requires IsText(t)
    ensures forall i :: 0 <= i < |t| ==> !LineEnd(t[i])
    decreases |t|
  {
    if t != "" {
      var k := if t[0] != '\\' then 1 else if t[1] == 'u' then 6 else 2;
      TextControls(t[k..]);
      forall i | k <= i < |t| ensures !LineEnd(t[i]) { assert t[i] == t[k..][i - k]; }
    }
  }

  lemma NumberControls(t: string)
    requires IsNumber(t)
    ensures forall i :: 0 <= i < |t| ==> !LineEnd(t[i])
  {
    var sign, w, f, e :| Parts(t, sign, w, f, e);
    FigureControls(w);
    FractionControls(f);
    ExponentControls(e);
    hide Integral, Fraction, Exponent;
  }

  lemma FigureControls(w: string)
    requires Integral(w)
    ensures forall i :: 0 <= i < |w| ==> !LineEnd(w[i])
  {
  }

  lemma FractionControls(f: string)
    requires Fraction(f)
    ensures forall i :: 0 <= i < |f| ==> !LineEnd(f[i])
  {
    forall i | 1 <= i < |f| ensures !LineEnd(f[i]) { assert f[i] == f[1..][i - 1]; }
  }

  lemma ExponentControls(e: string)
    requires Exponent(e)
    ensures forall i :: 0 <= i < |e| ==> !LineEnd(e[i])
  {
    forall i | 1 <= i < |e| ensures !LineEnd(e[i]) {
      assert e[i] == e[1..][i - 1];
      if i >= 2 { assert e[i] == e[2..][i - 2]; }
    }
  }

  lemma SpellingLines(x: Lexeme)
    requires Lexical([x])
    ensures LineEnds(Spelling(x)) == 0
  {
    assert [x][0] == x;
    if x.tok == Text {
      TextControls(x.text);
      hide IsText;
      assert forall i :: 0 <= i < |Spelling(x)| ==> !LineEnd(Spelling(x)[i]);
    } else if x.tok == Number {
      NumberControls(x.text);
      hide IsNumber;
    }
    NoLineEnds(Spelling(x));
  }

  /** Some number is followed by a line end directly. */
  predicate LineEndAfter(ts: seq<Lexeme>, gaps: seq<string>, i: nat)
    requires |gaps| == |ts| + 1
  {
    i < |ts| && ts[i].tok == Number && gaps[i + 1] != "" && LineEnd(gaps[i + 1][0])
  }

  ghost predicate NoLineEndAfter(ts: seq<Lexeme>, gaps: seq<string>)
    requires |gaps| == |ts| + 1
  {
    forall i: nat :: !LineEndAfter(ts, gaps, i)
  }

  /** A gap counts fewer lines than it has exactly if it begins with a line end, behind a number. */
  lemma GapLines(x: Lexeme, gap: string)
    ensures LineEnds(Counted(x, gap)) <= LineEnds(gap)
    ensures LineEnds(Counted(x, gap)) == LineEnds(gap) <==> !(x.tok == Number && gap != "" && LineEnd(gap[0]))
  {
    if x.tok == Number && gap != "" {
      assert gap == [gap[0]] + gap[1..];
      LineEndsSum([gap[0]], gap[1..]);
      LineEndsMore("", gap[0]);
      assert "" + [gap[0]] == [gap[0]];
    }
  }

  lemma LexicalMore(ts: seq<Lexeme>, x: Lexeme)
    requires Lexical(ts + [x])
    ensures Lexical(ts) && Lexical([x])
  {
    assert (ts + [x])[|ts|] == x;
    forall i | 0 <= i < |ts| ensures (ts + [x])[i] == ts[i] {}
    hide IsText, IsNumber;
  }

  lemma EndAfterMore(ts: seq<Lexeme>, gaps: seq<string>, x: Lexeme, gap: string)
    requires |gaps| == |ts| + 1
    ensures NoLineEndAfter(ts + [x], gaps + [gap]) <==>
      NoLineEndAfter(ts, gaps) && !(x.tok == Number && gap != "" && LineEnd(gap[0]))
  {
    var us, gs := ts + [x], gaps + [gap];
    if NoLineEndAfter(us, gs) {
      forall i: nat ensures !LineEndAfter(ts, gaps, i) { assert !LineEndAfter(us, gs, i); }
      assert !LineEndAfter(us, gs, |ts|);
    }
    if NoLineEndAfter(ts, gaps) && !(x.tok == Number && gap != "" && LineEnd(gap[0])) {
      forall i: nat ensures !LineEndAfter(us, gs, i) { assert !LineEndAfter(ts, gaps, i); }
    }
  }

  /** The line is one more than the line ends read, exactly if none of them is right behind a number. */
  lemma {:induction false} LineCount(ts: seq<Lexeme>, gaps: seq<string>)
    requires Lexical(ts) && |gaps| == |ts| + 1
    ensures Lines(ts, gaps) <= LineEnds(Join(ts, gaps))
    ensures Lines(ts, gaps) == LineEnds(Join(ts, gaps)) <==> NoLineEndAfter(ts, gaps)
    decreases |ts|
  {
    if ts != [] {
      var n := |ts| - 1;
      assert ts == ts[..n] + [ts[n]] && gaps == gaps[..n + 1] + [gaps[n + 1]];
      hide *;
      LexicalMore(ts[..n], ts[n]);
      LineCount(ts[..n], gaps[..n + 1]);
      LineCountMore(ts[..n], gaps[..n + 1], ts[n], gaps[n + 1]);
    }
  }

  lemma LineCountMore(ts: seq<Lexeme>, gaps: seq<string>, x: Lexeme, gap: string)
    requires |gaps| == |ts| + 1 && Lexical([x]) && Lines(ts, gaps) <= LineEnds(Join(ts, gaps))
    requires Lines(ts, gaps) == LineEnds(Join(ts, gaps)) <==> NoLineEndAfter(ts, gaps)
    ensures var us, gs := ts + [x], gaps + [gap];
      && Lines(us, gs) <= LineEnds(Join(us, gs))
      && (Lines(us, gs) == LineEnds(Join(us, gs)) <==> NoLineEndAfter(us, gs))
  {
    hide *;
    LinesMore(ts, gaps, x, gap);
    JoinMore(ts, gaps, x, gap);
    SpellingLines(x);
    LineEndsSum(Join(ts, gaps), Spelling(x) + gap);
    LineEndsSum(Spelling(x), gap);
    GapLines(x, gap);
    EndAfterMore(ts, gaps, x, gap);
  }

  /** The line on which a document ends. */
  lemma DocumentLine(s: string, j: Json, line: nat, ts: seq<Lexeme>, gaps: seq<string>)
    requires DocumentOn(s, j, line, ts, gaps)
    ensures |gaps| == |ts| + 1 && line <= 1 + LineEnds(s)
    ensures line == 1 + LineEnds(s) <==> NoLineEndAfter(ts, gaps)
  {
    LineCount(ts, gaps);
    hide Value, Lexical, Spaced, Join, Lines, LineEnds, NoLineEndAfter;
  }

  // Two examples

  lemma PruneMore(ts: seq<Lexeme>, x: Lexeme)
    ensures Prune(ts + [x]) == Pruned(Prune(ts), x)
  {
    assert (ts + [x])[..|ts|] == ts;
  }

  /** An array of one number, as the value of `a`. */
  function Sample(): Json {
    Json(OBJECT, "", [Json(STRING, "a", [Json(ARRAY, "", [Leaf(NUMBER, "1")])])])
  }

  lemma SampleValue()
    ensures Value(Sample())
  {
    StringOne("", 'a');
    assert "" + "a" == "a" && StringText("a");
    var list := Json(ARRAY, "", [Leaf(NUMBER, "1")]);
    assert Value(Leaf(NUMBER, "1")) && Value(list);
    assert Member(Json(STRING, "a", [list]));
  }

  lemma SampleList0()
    ensures Tokens(Json(ARRAY, "", [Leaf(NUMBER, "1")])) == [Sign(BeginArray), Lexeme(Number, "1"), Sign(EndArray)]
  {
    var list := Json(ARRAY, "", [Leaf(NUMBER, "1")]);
    ListedMore(list, 0);
    assert Listed(list, 1) == [Lexeme(Number, "1")];
    hide Listed;
  }

  lemma SampleTokens()
    ensures Value(Sample())
    ensures Tokens(Sample()) == [Sign(BeginObject), Lexeme(Text, "a"), Sign(NameSeparator), Sign(BeginArray),
      Lexeme(Number, "1"), Sign(EndArray), Sign(EndObject)]
  {
    SampleValue();
    SampleList0();
    var list := Json(ARRAY, "", [Leaf(NUMBER, "1")]);
    var member := Json(STRING, "a", [list]);
    ListedMore(member, 0);
    ListedMore(Sample(), 0);
    LabelTokens(member);
    assert Listed(member, 0) == [] && Listed(Sample(), 0) == [];
    assert Tokens(Sample()) == [Sign(BeginObject)] + Listed(Sample(), 1) + [Sign(EndObject)];
    hide Listed, Tokens, Value;
  }

  /** A text that makes the tokens, on one line, and what is left of them without spare commas. */
  ghost predicate Sampled(ts: seq<Lexeme>, gaps: seq<string>, s: string, u: seq<Lexeme>) {
    && |gaps| == |ts| + 1 && Lexical(ts) && Spaced(ts, gaps) && !Hangs(ts, gaps)
    && Join(ts, gaps) == s && Lines(ts, gaps) == 0 && Prune(ts) == u
  }

  /** One token more, without a gap behind it that counts. */
  lemma SampleMore(ts: seq<Lexeme>, gaps: seq<string>, s: string, u: seq<Lexeme>, x: Lexeme, gap: string,
      t: string, v: seq<Lexeme>)
    requires Sampled(ts, gaps, s, u) && Lexical([x])
    requires if x.tok == Number then gap == "\n" else gap == ""
    requires t == s + (Spelling(x) + gap) && v == Pruned(u, x)
    ensures Sampled(ts + [x], gaps + [gap], t, v)
  {
    LexicalGood(ts);
    LexicalGood([x]);
    assert [x][0] == x;
    GoodMore(ts, x);
    LexicalGood(ts + [x]);
    MayFollowAny(ts, gaps, x);
    assert Spaces(gap) && LineEnds(Counted(x, gap)) == 0;
    hide Lexical, Good, Join, Lines, Prune, Hangs, Spaced;
    SpacedMore(ts, gaps, x, gap);
    JoinMore(ts, gaps, x, gap);
    LinesMore(ts, gaps, x, gap);
    PruneMore(ts, x);
    NotHanging(ts, gaps, x, gap);
  }

  lemma SampleLexemes()
    ensures Lexical([Sign(BeginObject)]) && Lexical([Lexeme(Text, "a")]) && Lexical([Sign(NameSeparator)])
    ensures Lexical([Sign(BeginArray)]) && Lexical([Lexeme(Number, "1")]) && Lexical([Sign(ValueSeparator)])
    ensures Lexical([Sign(EndArray)]) && Lexical([Sign(EndObject)])
  {
    assert IsText("a") by { assert "a"[1..] == ""; }
    NumberByGrammar("1");
  }

  lemma SampleNone()
    ensures Sampled([], [""], "", [])
  {
    assert Spaced([], [""]) && Lines([], [""]) == LineEnds("") == 0;
  }

  /** The sample's text up to its number, and a line end behind that. */
  lemma SampleFront() returns (ts: seq<Lexeme>, gaps: seq<string>)
    ensures Sampled(ts, gaps, "{\"a\":[1\n",
        [Sign(BeginObject), Lexeme(Text, "a"), Sign(NameSeparator), Sign(BeginArray), Lexeme(Number, "1")])
  {
    SampleLexemes();
    SampleNone();
    hide Lexical, Sampled;
    var u1, u2 := [Sign(BeginObject)], [Sign(BeginObject), Lexeme(Text, "a")];
    SampleMore([], [""], "", [], Sign(BeginObject), "", "{", u1);
    ts, gaps := [] + [Sign(BeginObject)], [""] + [""];
    SampleMore(ts, gaps, "{", u1, Lexeme(Text, "a"), "", "{\"a\"", u2);
    ts, gaps := ts + [Lexeme(Text, "a")], gaps + [""];
    SampleMore(ts, gaps, "{\"a\"", u2, Sign(NameSeparator), "", "{\"a\":", u2 + [Sign(NameSeparator)]);
    assert u2 + [Sign(NameSeparator)] == [Sign(BeginObject), Lexeme(Text, "a"), Sign(NameSeparator)];
    ts, gaps := SampleList(ts + [Sign(NameSeparator)], gaps + [""]);
  }

  lemma SampleList(ts0: seq<Lexeme>, gaps0: seq<string>) returns (ts: seq<Lexeme>, gaps: seq<string>)
    requires Sampled(ts0, gaps0, "{\"a\":", [Sign(BeginObject), Lexeme(Text, "a"), Sign(NameSeparator)])
    ensures Sampled(ts, gaps, "{\"a\":[1\n",
        [Sign(BeginObject), Lexeme(Text, "a"), Sign(NameSeparator), Sign(BeginArray), Lexeme(Number, "1")])
  {
    SampleLexemes();
    hide Lexical, Sampled;
    var u := [Sign(BeginObject), Lexeme(Text, "a"), Sign(NameSeparator)];
    SampleMore(ts0, gaps0, "{\"a\":", u, Sign(BeginArray), "", "{\"a\":[", u + [Sign(BeginArray)]);
    ts, gaps := ts0 + [Sign(BeginArray)], gaps0 + [""];
    var v := u + [Sign(BeginArray)] + [Lexeme(Number, "1")];
    SampleMore(ts, gaps, "{\"a\":[", u + [Sign(BeginArray)], Lexeme(Number, "1"), "\n", "{\"a\":[1\n", v);
    ts, gaps := ts + [Lexeme(Number, "1")], gaps + ["\n"];
    assert v == [Sign(BeginObject), Lexeme(Text, "a"), Sign(NameSeparator), Sign(BeginArray), Lexeme(Number, "1")];
  }

  /** A document with a line end right behind a number, which is not counted, and with a comma to spare. */
  lemma LineLost()
    ensures Feed(INIT, "{\"a\":[1\n,]}") == Fed(Ended(Sample(), 1), WaitingForEof)
    ensures LineEnds("{\"a\":[1\n,]}") == 1
  {
    FrontLine();
    var ts, gaps := SampleFront();
    var s := "{\"a\":[1\n,]}";
    ts, gaps := SampleBack(ts, gaps);
    hide *;
    SampleIsDocument(ts, gaps, s);
    Accepted(s, Sample(), 1);
  }

  lemma SampleBack(ts0: seq<Lexeme>, gaps0: seq<string>) returns (ts: seq<Lexeme>, gaps: seq<string>)
    requires Sampled(ts0, gaps0, "{\"a\":[1\n",
        [Sign(BeginObject), Lexeme(Text, "a"), Sign(NameSeparator), Sign(BeginArray), Lexeme(Number, "1")])
    ensures Sampled(ts, gaps, "{\"a\":[1\n,]}", Tokens(Sample()))
  {
    SampleLexemes();
    SampleTokens();
    hide Lexical, Sampled, Tokens, Sample, Value;
    var u := [Sign(BeginObject), Lexeme(Text, "a"), Sign(NameSeparator), Sign(BeginArray), Lexeme(Number, "1")];
    var comma, end := u + [Sign(ValueSeparator)], u + [Sign(EndArray)];
    SampleMore(ts0, gaps0, "{\"a\":[1\n", u, Sign(ValueSeparator), "", "{\"a\":[1\n,", comma);
    ts, gaps := ts0 + [Sign(ValueSeparator)], gaps0 + [""];
    SampleMore(ts, gaps, "{\"a\":[1\n,", comma, Sign(EndArray), "", "{\"a\":[1\n,]", end);
    ts, gaps := ts + [Sign(EndArray)], gaps + [""];
    SampleMore(ts, gaps, "{\"a\":[1\n,]", end, Sign(EndObject), "", "{\"a\":[1\n,]}", end + [Sign(EndObject)]);
    ts, gaps := ts + [Sign(EndObject)], gaps + [""];
    assert end + [Sign(EndObject)] == Tokens(Sample());
  }

  lemma SampleIsDocument(ts: seq<Lexeme>, gaps: seq<string>, s: string)
    requires Sampled(ts, gaps, s, Tokens(Sample()))
    ensures DocumentOn(s, Sample(), 1, ts, gaps)
  {
    SampleTokens();
    hide Tokens, Value, Lexical, Spaced, Join, Lines, Prune, Hangs;
  }

  lemma FrontLine()
    ensures LineEnds("{\"a\":[1\n,]}") == 1
  {
    assert "{\"a\":[1\n,]}" == "{\"a\":[1" + ['\n'] + ",]}";
    LineEndsSum("{\"a\":[1" + ['\n'], ",]}");
    LineEndsMore("{\"a\":[1", '\n');
    NoLineEnds("{\"a\":[1");
    NoLineEnds(",]}");
  }
}
