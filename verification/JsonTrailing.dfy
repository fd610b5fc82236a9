/** What the parser lets follow a document: blanks, as it means to, and the beginning of any token. */
module JsonTrailing {
  import opened JsonGrammar
  import opened JsonLexer
  import opened JsonParser
  import opened JsonFragments
  import opened JsonTrees
  import opened JsonPrint
  import opened JsonTokens
  import opened JsonLanguage
  import opened JsonAccepted
  import opened JsonMeaning

  /** Something that can be completed to a string, a number or a word. */
  ghost predicate Unfinished(w: string) {
    || w in ["", "t", "tr", "tru", "f", "fa", "fal", "fals", "n", "nu", "nul"]
    || (w != "" && w[0] == '\"' && exists u :: IsText(w[1..] + u))
    || (w != "" && exists u :: IsNumber(w + u))
  }

  // Every part of a token can be completed

  function StringRest(state: nat): string
    decreases if state == 1 then 0 else if state <= 6 then 7 - state else 0
  {
    if state == 2 then "n" else if 3 <= state <= 6 then ['0'] + StringRest(if state == 6 then 1 else state + 1) else ""
  }

  function NumberRest(state: nat): string {
    if state == 18 || state == 19 || state == 21 || state == 24 then "" else "0"
  }

  lemma {:induction false} StringCompletes(t: string)
    requires StringState(t) != 0
    ensures StringText(t + StringRest(StringState(t)))
    decreases if StringState(t) == 1 then 0 else 7 - StringState(t)
  {
    var s := StringState(t);
    StringStates(t);
    if s == 1 {
      assert t + "" == t;
    } else if s == 2 {
      StringOne(t, 'n');
      assert "n" == ['n'];
    } else {
      StringOne(t, '0');
      hide StringState;
      StringCompletes(t + ['0']);
      Assoc(t, ['0'], StringRest(if s == 6 then 1 else s + 1));
    }
  }

  lemma NumberCompletes(t: string)
    requires NumberState(t) != 0
    ensures NumberText(t + NumberRest(NumberState(t)))
  {
    NumberStates(t);
    if NumberRest(NumberState(t)) == "" {
      assert t + "" == t;
    } else {
      NumberOne(t, '0');
    }
  }

  lemma PartUnfinished(l: Lex, part: string)
    requires Part(l, part)
    ensures Unfinished(part) && (l.state == 0 <==> part == "")
  {
    if l.state == 0 || 7 <= l.state <= 16 {
    } else if l.state <= 6 {
      StringCompletes(l.text);
      TextByGrammar(l.text + StringRest(l.state));
      assert part[1..] == l.text;
      hide StringState;
    } else {
      NumberCompletes(l.text);
      NumberByGrammar(l.text + NumberRest(l.state));
      hide NumberState;
    }
  }

  // And whatever can be completed is taken so far

  lemma {:induction false} StringBegun(t: string, u: string)
    requires StringState(t + u) != 0
    ensures StringState(t) != 0
    decreases |u|
  {
    if u == "" {
      assert t + u == t;
    } else {
      var n := |u| - 1;
      assert t + u == (t + u[..n]) + [u[n]];
      StringOne(t + u[..n], u[n]);
      StringBegun(t, u[..n]);
    }
  }

  lemma {:induction false} NumberBegun(t: string, u: string)
    requires t != "" && NumberState(t + u) != 0
    ensures NumberState(t) != 0
    decreases |u|
  {
    if u == "" {
      assert t + u == t;
    } else {
      var n := |u| - 1;
      assert t + u == (t + u[..n]) + [u[n]];
      NumberOne(t + u[..n], u[n]);
      NumberBegun(t, u[..n]);
    }
  }

  /** The parser keeps its state and its tree. */
  predicate Keeps(p: Parser, w: string)
    requires Deep(p)
  {
    var r := Steps(p, w);
    r.Going? && r.p.state == p.state && r.p.stack == p.stack
  }

  lemma KeepsString(p: Parser, t: string)
    requires Deep(p) && !Pending(p) && Idle(p) && StringState(t) != 0
    ensures Keeps(p, "\"" + t)
  {
    var q := InState(p, 1);
    OneStep(p, '\"', t);
    assert "\"" == ['\"'] && StepChar(p, '\"') == Going(q);
    EatString(q, t);
  }

  lemma {:induction false} KeepsWord(p: Parser, state: nat)
    requires Deep(p) && !Pending(p) && Idle(p) && 7 <= state <= 16
    ensures Steps(p, WordPart(state)) == Going(InState(p, state))
    decreases state
  {
    if state == 7 || state == 10 || state == 14 {
      var c := WordPart(state)[0];
      assert WordPart(state) == [c] + "";
      FirstLetter(p, c, state, "");
    } else {
      var c := WordNext(state - 1).0;
      WordMore(state - 1, c);
      KeepsWord(p, state - 1);
      StepsAppend(p, WordPart(state - 1), [c]);
      assert [c] + "" == [c];
      NextLetter(InState(p, state - 1), c, "");
    }
  }

  lemma WordState(w: string) returns (state: nat)
    requires w in ["t", "tr", "tru", "f", "fa", "fal", "fals", "n", "nu", "nul"]
    ensures 7 <= state <= 16 && w == WordPart(state)
  {
    state := if w == "t" then 7 else if w == "tr" then 8 else if w == "tru" then 9 else if w == "f" then 10
      else if w == "fa" then 11 else if w == "fal" then 12 else if w == "fals" then 13 else if w == "n" then 14
      else if w == "nu" then 15 else 16;
  }

  lemma UnfinishedKept(p: Parser, w: string)
    requires Deep(p) && !Pending(p) && Idle(p) && Unfinished(w)
    ensures Keeps(p, w)
  {
    if w == "" {
    } else if w in ["t", "tr", "tru", "f", "fa", "fal", "fals", "n", "nu", "nul"] {
      var state := WordState(w);
      KeepsWord(p, state);
    } else if w[0] == '\"' && exists u :: IsText(w[1..] + u) {
      var u :| IsText(w[1..] + u);
      TextByGrammar(w[1..] + u);
      StringBegun(w[1..], u);
      KeepsString(p, w[1..]);
      assert w == "\"" + w[1..];
    } else {
      var u :| IsNumber(w + u);
      NumberByGrammar(w + u);
      NumberBegun(w, u);
      EatNumber(p, w);
    }
  }

  // The end of the text

  /** A document, and something unfinished behind it. */
  ghost predicate Trailed(s: string, d: string, w: string, j: Json, ts: seq<Lexeme>, gaps: seq<string>) {
    s == d + w && Document(d, j, ts, gaps) && Unfinished(w)
  }

  /** The parser is content with the text. */
  predicate Waits(s: string) {
    Deep(INIT) && Feed(INIT, s).Fed? && Feed(INIT, s).code == WaitingForEof
  }

  lemma WaitsAt(s: string)
    ensures Deep(INIT) && (Waits(s) <==> Steps(INIT, s).Going? && Steps(INIT, s).p.state == 99)
    ensures Waits(s) ==> Feed(INIT, s).p == Steps(INIT, s).p
  {
    FeedIsSteps(INIT, s);
  }

  lemma EndOfDocument(s: string, p: Parser, ts: seq<Lexeme>, gaps: seq<string>, part: string)
    requires Read(s, p, ts, gaps, part) && p.state == 99
    ensures |gaps| == |ts| + 1 && |p.stack| == 1 && Document(Join(ts, gaps), p.stack[0], ts, gaps)
    ensures s == Join(ts, gaps) + part
    ensures Part(p.lex, part)
  {
    TokensTold(ts);
    LexicalGood(ts);
    hide Join, Lexical, Spaced, TakeAll, Prune, Tokens, Good, Value, Hangs, Part;
  }

  /** The parser is content exactly with a document that nothing but blanks follows, and one that also the
      beginning of a string, a number or a word follows. */
  lemma ContentWith(s: string)
    ensures Waits(s) <==> exists d, w, j, ts, gaps :: Trailed(s, d, w, j, ts, gaps)
  {
    hide *;
    WaitsAt(s);
    if Waits(s) {
      var ts, gaps, part := ReadBack(s);
      var p := Steps(INIT, s).p;
      EndOfDocument(s, p, ts, gaps, part);
      PartUnfinished(p.lex, part);
      TrailedBy(s, Join(ts, gaps), part, p.stack[0], ts, gaps);
    }
    if d, w, j, ts, gaps :| Trailed(s, d, w, j, ts, gaps) {
      TrailedWaits(s, d, w, j, ts, gaps);
    }
  }

  lemma TrailedBy(s: string, d: string, w: string, j: Json, ts: seq<Lexeme>, gaps: seq<string>)
    requires s == d + w && Document(d, j, ts, gaps) && Unfinished(w)
    ensures Trailed(s, d, w, j, ts, gaps)
  {
  }

  lemma TrailedWaits(s: string, d: string, w: string, j: Json, ts: seq<Lexeme>, gaps: seq<string>)
    requires Trailed(s, d, w, j, ts, gaps)
    ensures Waits(s)
  {
    var p := Ended(j, 1 + Lines(ts, gaps));
    DocumentRead(d, j, 1 + Lines(ts, gaps), ts, gaps);
    UnfinishedKept(p, w);
    StepsAppend(INIT, d, w);
    WaitsAt(s);
    hide Document, Unfinished, Steps, Lines, Feed;
  }

  /** Content with the text, the parser has read a document and nothing else exactly if the lexer is outside any
      token, which the caller can see. */
  lemma OnlyBlanksFollow(s: string)
    requires Waits(s)
    ensures Deep(INIT) && (Feed(INIT, s).p.lex.state == 0 <==> exists j, ts, gaps :: Document(s, j, ts, gaps))
  {
    hide *;
    WaitsAt(s);
    var p := Steps(INIT, s).p;
    if p.lex.state == 0 {
      var ts, gaps, part := ReadBack(s);
      EndOfDocument(s, p, ts, gaps, part);
      PartUnfinished(p.lex, part);
      assert Join(ts, gaps) + "" == Join(ts, gaps);
      assert Document(s, p.stack[0], ts, gaps);
    }
    if j, ts, gaps :| Document(s, j, ts, gaps) {
      DocumentState(s, j, ts, gaps);
    }
  }

  lemma DocumentState(s: string, j: Json, ts: seq<Lexeme>, gaps: seq<string>)
    requires Document(s, j, ts, gaps)
    ensures Deep(INIT) && Steps(INIT, s).Going? && Steps(INIT, s).p.lex.state == 0
  {
    DocumentRead(s, j, 1 + Lines(ts, gaps), ts, gaps);
  }

  /** Behind an empty object, a quote and a letter do not trouble the parser. */
  lemma TrailingQuote()
    ensures Waits("{}\"x") && Feed(INIT, "{}\"x").p == Parser(99, Lex(1, "x", 1), [Leaf(OBJECT, "")])
    ensures !exists j, ts, gaps :: Document("{}\"x", j, ts, gaps)
  {
    var s := "{}\"x";
    EmptyObject();
    BegunString(Ended(Leaf(OBJECT, ""), 1));
    StepsAppend(INIT, "{}", "\"x");
    assert "{}" + "\"x" == s;
    hide *;
    WaitsAt(s);
    OnlyBlanksFollow(s);
  }

  lemma EmptyObject()
    ensures Deep(INIT) && Steps(INIT, "{}") == Going(Ended(Leaf(OBJECT, ""), 1))
  {
    var j := Leaf(OBJECT, "");
    RoundTrip(j);
    assert PrintFrom(j, 0) == "" && Print(j, false) == "{}";
    FeedEnded("{}", j, 1);
  }

  lemma BegunString(p: Parser)
    requires Deep(p) && !Pending(p) && Idle(p)
    ensures Steps(p, "\"x") == Going(p.(lex := Lex(1, "x", p.lex.line)))
  {
    QuoteStep(p);
    OneStep(p, '\"', "x");
    assert ['\"'] + "x" == "\"x";
    LetterState();
    hide Steps, StepChar, StringState;
    EatString(InState(p, 1), "x");
  }

  lemma QuoteStep(p: Parser)
    requires Deep(p) && !Pending(p) && Idle(p)
    ensures StepChar(p, '\"') == Going(InState(p, 1))
  {
  }

  lemma LetterState()
    ensures StringState("x") == 1
  {
    StringOne("", 'x');
    assert "" + "x" == "x";
  }

  // Characters that begin no token

  /** A value or a label must come next. */
  predicate WantsMore(u: seq<Lexeme>) {
    u != [] && var tok := u[|u| - 1].tok; tok == ValueSeparator || tok == NameSeparator || tok == BeginArray
  }

  lemma SofarWants(p: Parser)
    requires Placed(p) && !Pending(p)
    ensures WantsMore(Sofar(p)) <==> p.state == 4 || p.state == 6 || p.state == 8
  {
    if p.state == 3 || p.state == 9 {
      ItemWants(p);
    } else if p.state == 8 {
      hide Way, Trail, Opening;
      WayEnds(p.stack);
    } else if p.state == 99 {
      hide Tokens, Trail, Opening;
      TokensOfContainer(p.stack[0]);
    } else if p.stack != [] {
      OpenWants(p);
    }
  }

  lemma ItemWants(p: Parser)
    requires Placed(p) && (p.state == 3 || p.state == 9)
    ensures !WantsMore(Sofar(p))
  {
    hide *;
    ItemParts(p);
    TrailEnds(p.stack);
    EndsWant(Trail(p.stack));
  }

  lemma ItemParts(p: Parser)
    requires Placed(p) && (p.state == 3 || p.state == 9)
    ensures p.stack != [] && Value(Cursor(p.stack)) && Cursor(p.stack).kids != [] && Sofar(p) == Trail(p.stack)
  {
    assert Value(p.stack[|p.stack| - 1]);
    hide Trail, Value;
  }

  lemma EndsWant(u: seq<Lexeme>)
    requires EndsIn(u)
    ensures !WantsMore(u)
  {
  }

  lemma OpenWants(p: Parser)
    requires Placed(p) && (p.state == 2 || p.state == 4 || p.state == 5 || p.state == 6)
    ensures WantsMore(Sofar(p)) <==> p.state == 4 || p.state == 6
  {
    var j := Cursor(p.stack);
    TrailOf(p.stack);
    assert Listed(j, 0) == [];
    hide Trail, Way, Listed, Stacked;
    if p.state == 2 {
      assert Opening(j) == [Sign(BeginObject)];
    } else if p.state == 6 {
      assert Opening(j) == [Lexeme(Text, j.text), Sign(NameSeparator)];
    }
    hide Opening;
  }

  lemma InvalidCode(p: Parser)
    requires Placed(p) && Deep(p)
    ensures Deliver(p, Invalid) == Failed(
      if p.state == 4 || p.state == 6 || p.state == 8 then IllegalCharacter else Malformed)
      || Pending(p)
  {
    hide Stacked;
  }

  lemma SameWants(ts: seq<Lexeme>)
    ensures WantsMore(Prune(ts)) <==> WantsMore(ts)
  {
    if ts != [] { PruneLast(ts); }
    hide Prune;
  }

  lemma TokensWant(ts: seq<Lexeme>)
    requires AllGood(ts) && TakeAll(ts).Going?
    ensures Deep(Opened(TakeAll(ts).p)) && Deliver(Opened(TakeAll(ts).p), Invalid) ==
      Failed(if WantsMore(ts) then IllegalCharacter else Malformed)
  {
    hide *;
    TokensTold(ts);
    var p := TakeAll(ts).p;
    OpenedPlaced(p);
    SofarWants(Opened(p));
    InvalidCode(Opened(p));
    SameWants(ts);
  }

  /** A character that can begin no token is refused; as an illegal one if it stands where a value or a label must,
      which is behind a comma, a colon or the opening bracket of an array. */
  lemma StrangeCharacter(ts: seq<Lexeme>, gaps: seq<string>, c: char)
    requires Lexical(ts) && Spaced(ts, gaps) && !Hangs(ts, gaps) && TakeAll(ts).Going?
    requires c !in " \t\n\r{}[]:,\"tfn-0123456789"
    ensures Deep(INIT)
    ensures Feed(INIT, Join(ts, gaps) + [c]) == Rejected(if WantsMore(ts) then IllegalCharacter else Malformed)
  {
    hide *;
    WaitsAt("");
    LexicalGood(ts);
    SpacedCount(ts, gaps);
    ReadAll(ts, gaps);
    TakeAllStart(ts);
    TokensWant(ts);
    StrangeStep(ts, gaps, c);
    StepsAppend(INIT, Join(ts, gaps), [c]);
    SettleRejected(Join(ts, gaps) + [c]);
  }

  lemma StrangeStep(ts: seq<Lexeme>, gaps: seq<string>, c: char)
    requires |gaps| == |ts| + 1 && !Hangs(ts, gaps) && TakeAll(ts).Going?
    requires TakeAll(ts).p.lex == START && Deep(TakeAll(ts).p)
    requires c !in " \t\n\r{}[]:,\"tfn-0123456789"
    requires Deep(Opened(TakeAll(ts).p)) && Deliver(Opened(TakeAll(ts).p), Invalid).Failed?
    ensures Deep(Arrival(ts, gaps))
    ensures Steps(Arrival(ts, gaps), [c]) == Failed(Deliver(Opened(TakeAll(ts).p), Invalid).code)
  {
    var p, line := TakeAll(ts).p, 1 + Lines(ts, gaps);
    ArrivalCases(ts, gaps);
    OpenedLine(p, line);
    DeliverLine(Opened(p), "", Invalid, line);
    NoToken(c, line);
    hide TakeAll, Lines, Hangs, Arrival, Deliver;
    var q := if gaps[|ts|] == "" then OnLine(p, line) else OnLine(Opened(p), line);
    StepsOpened(p, line, [c]);
    OneStep(OnLine(Opened(p), line), c, "");
    assert [c] + "" == [c];
  }

  lemma NoToken(c: char, line: nat)
    requires c !in " \t\n\r{}[]:,\"tfn-0123456789"
    ensures LexChar(Lex(0, "", line), c) == Emit(Invalid, Lex(0, "", line), true)
  {
    assert c != ' ' && c != '\t' && c != '\n' && c != '\r';
  }

  lemma SettleRejected(s: string)
    requires Deep(INIT) && Steps(INIT, s).Failed?
    ensures Feed(INIT, s) == Rejected(Steps(INIT, s).code)
  {
    FeedIsSteps(INIT, s);
  }

  // Commas to spare

  /** No comma stands right before the closing bracket of an array. */
  predicate NoneToSpare(ts: seq<Lexeme>) {
    forall i :: 0 < i < |ts| && ts[i].tok == EndArray ==> ts[i - 1].tok != ValueSeparator
  }

  lemma PruneShorter(ts: seq<Lexeme>)
    ensures |Prune(ts)| <= |ts| && (Prune(ts) == ts || |Prune(ts)| < |ts|)
  {
    if ts != [] {
      PruneShorter(ts[..|ts| - 1]);
      assert ts == ts[..|ts| - 1] + [ts[|ts| - 1]];
    }
  }

  /** A comma is taken only behind a value. */
  lemma CommaFollows(w: seq<Lexeme>, x: Lexeme)
    requires AllGood(w) && Good(x) && x.tok == ValueSeparator && TakeAll(w + [x]).Going?
    ensures w != [] && w[|w| - 1].tok != BeginArray && w[|w| - 1].tok != ValueSeparator
  {
    TakeAllMore(w, x);
    TokensTold(w);
    var p := TakeAll(w).p;
    OpenedPlaced(p);
    GoodComma(x);
    CommaTake(p, x);
    ItemParts(p);
    TrailEnds(p.stack);
    NotPending(p);
    hide *;
    SameEnds(w);
  }

  lemma GoodComma(x: Lexeme)
    requires Good(x) && x.tok == ValueSeparator
    ensures x == Sign(ValueSeparator)
  {
  }

  lemma SameEnds(ts: seq<Lexeme>)
    requires EndsIn(Prune(ts))
    ensures ts != [] && ts[|ts| - 1].tok != BeginArray && ts[|ts| - 1].tok != ValueSeparator
  {
    if ts != [] { PruneLast(ts); }
  }

  /** A last comma is one to spare. */
  lemma SpareLast(t: seq<Lexeme>)
    requires AllGood(t) && TakeAll(t).Going?
    ensures SpareComma(t) <==> t != [] && t[|t| - 1].tok == ValueSeparator
  {
    hide TakeAll, Good;
    if t != [] && t[|t| - 1].tok == ValueSeparator {
      SpareBehind(t[..|t| - 1], t[|t| - 1], t);
    }
  }

  lemma SpareBehind(w: seq<Lexeme>, x: Lexeme, t: seq<Lexeme>)
    requires t == w + [x] && AllGood(t) && TakeAll(t).Going? && x.tok == ValueSeparator
    ensures SpareComma(t)
  {
    assert t[|w|] == x && forall i :: 0 <= i < |w| ==> t[i] == w[i];
    hide TakeAll, Good;
    CommaFollows(w, x);
  }

  lemma NoneToSpareMore(t: seq<Lexeme>, x: Lexeme)
    ensures NoneToSpare(t + [x]) <==>
      NoneToSpare(t) && !(x.tok == EndArray && t != [] && t[|t| - 1].tok == ValueSeparator)
  {
    var u := t + [x];
    if NoneToSpare(u) {
      forall i | 0 < i < |t| && t[i].tok == EndArray ensures t[i - 1].tok != ValueSeparator {
        assert u[i] == t[i] && u[i - 1] == t[i - 1];
      }
      if t != [] { assert u[|t|] == x && u[|t| - 1] == t[|t| - 1]; }
    }
  }

  lemma PrunedIs(u: seq<Lexeme>, x: Lexeme)
    ensures |Pruned(u, x)| <= |u| + 1
    ensures Pruned(u, x) == u + [x] <==> !(x.tok == EndArray && SpareComma(u))
  {
  }

  lemma PruneStaysMore(t: seq<Lexeme>, x: Lexeme)
    requires AllGood(t) && TakeAll(t).Going?
    requires Prune(t) == t <==> NoneToSpare(t)
    ensures Prune(t + [x]) == t + [x] <==> NoneToSpare(t + [x])
  {
    hide *;
    PruneMore(t, x);
    PruneShorter(t);
    PrunedIs(Prune(t), x);
    SpareLast(t);
    NoneToSpareMore(t, x);
  }

  lemma {:induction false} PruneStays(ts: seq<Lexeme>)
    requires AllGood(ts) && TakeAll(ts).Going?
    ensures Prune(ts) == ts <==> NoneToSpare(ts)
    decreases |ts|
  {
    hide *;
    if ts == [] {
      NothingPruned(ts);
    } else {
      var n := |ts| - 1;
      GoodAll(ts);
      TakeAllLast(ts);
      PruneStays(ts[..n]);
      assert ts == ts[..n] + [ts[n]];
      PruneStaysMore(ts[..n], ts[n]);
    }
  }

  lemma NothingPruned(ts: seq<Lexeme>)
    requires ts == []
    ensures Prune(ts) == ts && NoneToSpare(ts)
  {
  }

  /** The tokens of a document are those of its tree exactly if no comma is to spare. */
  lemma StrictlyTokens(s: string, j: Json, ts: seq<Lexeme>, gaps: seq<string>)
    requires Document(s, j, ts, gaps)
    ensures ts == Tokens(j) <==> NoneToSpare(ts)
  {
    LexicalGood(ts);
    DocumentTaken(ts, j);
    PruneStays(ts);
    if ts == Tokens(j) { assert Prune(ts) == ts; }
    hide *;
  }
}
