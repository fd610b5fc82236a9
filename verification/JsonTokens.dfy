/** JSON documents as sequences of tokens, and that the parser takes exactly those. */
module JsonTokens {
  import opened JsonLexer
  import opened JsonParser
  import opened JsonPrint
  import opened JsonTrees

  /** A token, with the text of a string or number. */
  datatype Lexeme = Lexeme(tok: Token, text: string)

  function Sign(tok: Token): Lexeme {
    Lexeme(tok, "")
  }

  /** Only strings and numbers have a text. */
  predicate Plain(x: Lexeme) {
    x.tok != More && x.tok != Invalid && (x.tok != Text && x.tok != Number ==> x.text == "")
  }

  // The grammar

  /** The tokens of a node: a label's are its text, a colon and its value. */
  function Tokens(j: Json): (r: seq<Lexeme>)
    ensures r != []
    decreases j, |j.kids| + 1
  {
    match j.kind
    case STRING =>
      [Lexeme(Text, j.text)] + (if j.kids == [] then [] else [Sign(NameSeparator)] + Listed(j, |j.kids|))
    case NUMBER => [Lexeme(Number, j.text)]
    case TRUE => [Sign(True)]
    case FALSE => [Sign(False)]
    case NULL => [Sign(Null)]
    case OBJECT => [Sign(BeginObject)] + Listed(j, |j.kids|) + [Sign(EndObject)]
    case ARRAY => [Sign(BeginArray)] + Listed(j, |j.kids|) + [Sign(EndArray)]
  }

  /** The tokens of the first `n` children, with commas between them. */
  function Listed(j: Json, n: nat): seq<Lexeme>
    requires n <= |j.kids|
    decreases j, n
  {
    if n == 0 then [] else Listed(j, n - 1) + Comma(n > 1) + Tokens(j.kids[n - 1])
  }

  function Comma(b: bool): seq<Lexeme> {
    if b then [Sign(ValueSeparator)] else []
  }

  /** The one liberty that the parser allows: a comma may stand between the last value of an array and its closing
      bracket. Here the next token of a sequence takes such a comma away. */
  function Pruned(u: seq<Lexeme>, x: Lexeme): seq<Lexeme> {
    if x.tok == EndArray && SpareComma(u) then u[..|u| - 1] + [x] else u + [x]
  }

  predicate SpareComma(u: seq<Lexeme>) {
    |u| >= 2 && u[|u| - 1].tok == ValueSeparator && u[|u| - 2].tok != BeginArray && u[|u| - 2].tok != ValueSeparator
  }

  function Prune(ts: seq<Lexeme>): seq<Lexeme> {
    if ts == [] then [] else Pruned(Prune(ts[..|ts| - 1]), ts[|ts| - 1])
  }

  // The parser, token by token

  function Take(p: Parser, x: Lexeme): (r: Result)
    requires Deep(p)
    ensures r.Going? ==> Deep(r.p)
  {
    var o := Opened(p).(lex := Lex(0, x.text, 1));
    DeliverDeep(o, x.tok);
    Deliver(o, x.tok)
  }

  function TakeAll(ts: seq<Lexeme>): (r: Result)
    ensures r.Going? ==> Deep(r.p)
  {
    if ts == [] then Going(INIT) else
      match TakeAll(ts[..|ts| - 1])
      case Failed(code) => Failed(code)
      case Going(p) => Take(p, ts[|ts| - 1])
  }

  // What the tokens were, told from where the parser is

  function Opening(j: Json): seq<Lexeme> {
    match j.kind
    case OBJECT => [Sign(BeginObject)] + Listed(j, |j.kids|)
    case ARRAY => [Sign(BeginArray)] + Listed(j, |j.kids|)
    case _ => [Lexeme(Text, j.text), Sign(NameSeparator)]
  }

  /** The tokens that opened the nodes from the root to the cursor, and those of their children so far. */
  function Trail(stack: seq<Json>): seq<Lexeme>
    decreases |stack|, 0
  {
    if stack == [] then [] else Way(stack[..|stack| - 1]) + Opening(Cursor(stack))
  }

  /** The tokens up to where a new child begins. */
  function Way(stack: seq<Json>): seq<Lexeme>
    decreases |stack|, 1
  {
    if stack == [] then [] else Trail(stack) + Comma(Cursor(stack).kids != [])
  }

  function Sofar(p: Parser): seq<Lexeme>
    requires CursorFits(p)
  {
    match p.state
    case 0 => []
    case 4 => Way(p.stack)
    case 5 => Way(p.stack[..|p.stack| - 1]) + [Lexeme(Text, Cursor(p.stack).text)]
    case 8 => Way(p.stack)
    case 99 => Tokens(p.stack[0])
    case _ => Trail(p.stack)
  }

  /** The invariant of the token machine. */
  predicate Placed(p: Parser) {
    && Stacked(p.stack) && CursorFits(p) && p.lex == START
    && (p.state == 2 ==> Cursor(p.stack).kids == [])
    && (p.state == 3 || p.state == 4 || p.state == 9 ==> Cursor(p.stack).kids != [])
  }

  lemma OpenedPlaced(p: Parser)
    requires Placed(p)
    ensures Placed(Opened(p)) && !Pending(Opened(p)) && Deep(p) && Deep(Opened(p))
  {
    ConsistentDeep(p);
    OpenedKept(p);
  }

  // One more child, and the end of a container

  lemma {:induction false} ListedSame(j: Json, k: Json, n: nat)
    requires n <= |j.kids| && n <= |k.kids| && j.kids[..n] == k.kids[..n]
    ensures Listed(j, n) == Listed(k, n)
    decreases n
  {
    if n > 0 {
      assert j.kids[..n][..n - 1] == j.kids[..n - 1] && k.kids[..n][..n - 1] == k.kids[..n - 1];
      assert j.kids[..n][n - 1] == k.kids[..n][n - 1];
      ListedSame(j, k, n - 1);
    }
  }

  lemma OpeningMore(j: Json, kid: Json)
    requires j.kind == OBJECT || j.kind == ARRAY
    ensures Opening(Add(j, kid)) == Opening(j) + Comma(j.kids != []) + Tokens(kid)
  {
    var k, n := Add(j, kid), |j.kids|;
    ListedSame(j, k, n);
    ListedMore(k, n);
    assert k.kids[n] == kid;
    hide Listed, Tokens, Comma;
    Assoc3([Sign(if j.kind == OBJECT then BeginObject else BeginArray)], Listed(j, n), Comma(n > 0), Tokens(kid));
  }

  lemma ListedMore(j: Json, n: nat)
    requires n < |j.kids|
    ensures Listed(j, n + 1) == Listed(j, n) + Comma(n > 0) + Tokens(j.kids[n])
  {
  }

  lemma Assoc3(a: seq<Lexeme>, b: seq<Lexeme>, c: seq<Lexeme>, d: seq<Lexeme>)
    ensures a + (b + c + d) == a + b + c + d
  {
  }

  lemma Assoc2(a: seq<Lexeme>, b: seq<Lexeme>, c: seq<Lexeme>)
    ensures a + (b + c) == a + b + c
  {
  }

  lemma TokensOfContainer(j: Json)
    requires j.kind == OBJECT || j.kind == ARRAY
    ensures Tokens(j) == Opening(j) + [Sign(if j.kind == OBJECT then EndObject else EndArray)]
  {
  }

  lemma TokensOfLabel(name: Json, v: Json)
    requires name.kind == STRING && name.kids == []
    ensures Tokens(Add(name, v)) == Opening(name) + Tokens(v)
  {
    assert Listed(Add(name, v), 1) == Tokens(v) by { assert Listed(Add(name, v), 0) == []; }
  }

  lemma TrailOf(stack: seq<Json>)
    requires stack != []
    ensures Trail(stack) == Way(stack[..|stack| - 1]) + Opening(Cursor(stack))
    ensures Way(stack) == Trail(stack) + Comma(Cursor(stack).kids != [])
  {
  }

  lemma InsertTrail(stack: seq<Json>, kid: Json)
    requires stack != [] && (Cursor(stack).kind == OBJECT || Cursor(stack).kind == ARRAY)
    ensures Trail(Insert(stack, kid)) == Way(stack) + Tokens(kid)
  {
    var n, s := |stack| - 1, Insert(stack, kid);
    assert s[..n] == stack[..n] && Cursor(s) == Add(Cursor(stack), kid);
    hide Tokens, Opening, Trail, Way, Comma;
    OpeningMore(Cursor(stack), kid);
    TrailOf(stack);
    TrailOf(s);
    Assoc3(Way(stack[..n]), Opening(Cursor(stack)), Comma(Cursor(stack).kids != []), Tokens(kid));
  }

  /** A value has come where one may come. */
  lemma AfterTokens(p: Parser, v: Json)
    requires Awaits(p) && Stacked(p.stack)
    ensures Trail(AfterValue(p, v).stack) == Way(p.stack) + Tokens(v)
  {
    hide Tokens, Way, Trail;
    if p.state == 8 {
      InsertTrail(p.stack, v);
    } else {
      var n := |p.stack| - 1;
      var name, base := p.stack[n], p.stack[..n];
      assert Insert(p.stack, v)[..n] == base && Cursor(Insert(p.stack, v)) == Add(name, v);
      InsertTrail(base, Add(name, v));
      TokensOfLabel(name, v);
      LabelWay(p.stack);
      Assoc2(Way(base), Opening(name), Tokens(v));
    }
  }

  lemma LabelWay(stack: seq<Json>)
    requires stack != [] && Cursor(stack).kids == []
    ensures Way(stack) == Trail(stack) == Way(stack[..|stack| - 1]) + Opening(Cursor(stack))
  {
  }

  lemma LeaveTokens(p: Parser)
    requires Stacked(p.stack) && p.stack != [] && (Cursor(p.stack).kind == OBJECT || Cursor(p.stack).kind == ARRAY)
    requires p.lex == START
    ensures var r, c := Leave(p), if Cursor(p.stack).kind == OBJECT then EndObject else EndArray;
      r.Going? && Placed(r.p) && !Pending(r.p) && Sofar(r.p) == Trail(p.stack) + [Sign(c)]
  {
    LeaveKept(p);
    if |p.stack| == 1 {
      assert p.stack[..0] == [];
      TokensOfContainer(p.stack[0]);
      hide Tokens, Opening;
    } else {
      hide *;
      LeaveInner(p);
    }
  }

  lemma LeaveInner(p: Parser)
    requires Stacked(p.stack) && |p.stack| > 1 && (Cursor(p.stack).kind == OBJECT || Cursor(p.stack).kind == ARRAY)
    requires p.lex == START
    ensures var r, c := Leave(p), if Cursor(p.stack).kind == OBJECT then EndObject else EndArray;
      r.Going? && Placed(r.p) && !Pending(r.p) && Sofar(r.p) == Trail(p.stack) + [Sign(c)]
  {
    hide *;
    var n := |p.stack| - 1;
    CursorIs(p.stack);
    var base, v := p.stack[..n], p.stack[n];
    var o := Parser(if Cursor(base).kind == STRING then 6 else 8, p.lex, base);
    LeaveKept(p);
    LeaveAfter(p);
    PopStacked(p.stack);
    AfterTokens(o, v);
    TokensOfContainer(v);
    TrailOf(p.stack);
    Assoc2(Way(base), Opening(v), [Sign(if v.kind == OBJECT then EndObject else EndArray)]);
    AfterState(o, v);
    AfterSofar(AfterValue(o, v));
  }

  lemma CursorIs(stack: seq<Json>)
    requires stack != []
    ensures Cursor(stack) == stack[|stack| - 1]
  {
  }

  lemma AfterState(o: Parser, v: Json)
    requires Awaits(o)
    ensures var q := AfterValue(o, v); q.lex == o.lex && (q.state == 3 || q.state == 9) && !Pending(q) && q.stack != []
  {
  }

  /** The end of a container below another node is the coming of a value there. */
  lemma LeaveAfter(p: Parser)
    requires Stacked(p.stack) && |p.stack| > 1 && (Cursor(p.stack).kind == OBJECT || Cursor(p.stack).kind == ARRAY)
    ensures var base := p.stack[..|p.stack| - 1];
      var o := Parser(if Cursor(base).kind == STRING then 6 else 8, p.lex, base);
      && Awaits(o) && Leave(p) == Going(AfterValue(o, Cursor(p.stack)))
      && Cursor(AfterValue(o, Cursor(p.stack)).stack).kids != []
  {
    var n := |p.stack| - 1;
    var base, v := p.stack[..n], p.stack[n];
    assert SitsAt(p.stack, n);
    if Cursor(base).kind == STRING { assert SitsAt(p.stack, n - 1); }
    assert Up(p.stack) == Insert(base, v);
  }

  // What the last token is

  /** The token may end a value. */
  predicate EndsIn(u: seq<Lexeme>) {
    u != [] && u[|u| - 1].tok != ValueSeparator && u[|u| - 1].tok != BeginArray && u[|u| - 1].tok != NameSeparator
  }

  lemma EndsAppend(a: seq<Lexeme>, b: seq<Lexeme>)
    requires EndsIn(b)
    ensures EndsIn(a + b)
  {
  }

  lemma {:induction false} TokensEnd(j: Json)
    requires Value(j) || Member(j)
    ensures EndsIn(Tokens(j))
    decreases j
  {
    if j.kind == STRING && j.kids != [] {
      TokensEnd(j.kids[0]);
      ListedMore(j, 0);
      EndsAppend(Listed(j, 0) + Comma(false), Tokens(j.kids[0]));
      hide Tokens;
      LabelTokens(j);
      EndsAppend([Lexeme(Text, j.text), Sign(NameSeparator)], Listed(j, 1));
    }
  }

  lemma LabelTokens(j: Json)
    requires j.kind == STRING && |j.kids| == 1
    ensures Tokens(j) == [Lexeme(Text, j.text), Sign(NameSeparator)] + Listed(j, 1)
  {
    hide Listed;
  }

  lemma TrailEnds(stack: seq<Json>)
    requires stack != [] && Value(Cursor(stack)) && Cursor(stack).kids != []
    ensures EndsIn(Trail(stack))
  {
    var j, n := Cursor(stack), |Cursor(stack).kids|;
    TrailOf(stack);
    ListedMore(j, n - 1);
    assert Value(j.kids[n - 1]) || Member(j.kids[n - 1]);
    TokensEnd(j.kids[n - 1]);
    hide Listed, Tokens, Trail, Way;
    EndsAppend(Listed(j, n - 1) + Comma(n > 1), Tokens(j.kids[n - 1]));
    EndsAppend([Sign(if j.kind == OBJECT then BeginObject else BeginArray)], Listed(j, n));
    EndsAppend(Way(stack[..|stack| - 1]), Opening(j));
  }

  /** Behind the comma in an array there is one to spare; behind its opening bracket or a value there is not. */
  lemma SpareInArray(stack: seq<Json>)
    requires stack != [] && Value(Cursor(stack)) && Cursor(stack).kind == ARRAY
    ensures SpareComma(Way(stack)) <==> Cursor(stack).kids != []
    ensures Cursor(stack).kids != [] ==> !SpareComma(Trail(stack)) && Way(stack)[..|Way(stack)| - 1] == Trail(stack)
    ensures Cursor(stack).kids == [] ==> Way(stack) == Trail(stack)
  {
    TrailOf(stack);
    if Cursor(stack).kids != [] {
      TrailEnds(stack);
    } else {
      assert Listed(Cursor(stack), 0) == [];
    }
    hide Trail;
  }

  // Each token

  /** What a token does where the parser is. */
  predicate TakesToken(p: Parser, x: Lexeme)
    requires Placed(p) && !Pending(p) && Deep(p)
  {
    var r := Take(p, x);
    r.Going? ==> Placed(r.p) && (OpenedPlaced(r.p); Sofar(Opened(r.p)) == Pruned(Sofar(p), x))
  }

  /** The text of a token is one the lexer takes. */
  predicate Good(x: Lexeme) {
    Plain(x) && (x.tok == Text ==> StringText(x.text)) && (x.tok == Number ==> NumberText(x.text))
  }

  lemma ScalarTokens(tok: Token, text: string)
    requires ScalarToken(tok) && Plain(Lexeme(tok, text))
    ensures Tokens(Scalar(tok, text)) == [Lexeme(tok, text)]
  {
  }

  lemma ScalarTake(p: Parser, x: Lexeme)
    requires Placed(p) && Deep(p) && Good(x) && ScalarToken(x.tok) && (p.state == 6 || p.state == 8)
    ensures Awaits(p) && Take(p, x) == Going(AfterValue(p, Scalar(x.tok, x.text)))
    ensures Stacked(AfterValue(p, Scalar(x.tok, x.text)).stack) && CursorFits(AfterValue(p, Scalar(x.tok, x.text)))
  {
    var o := p.(lex := Lex(0, x.text, 1));
    ScalarAwaits(p);
    hide Stacked, Awaits, Scalar;
    assert Awaits(o);
    ScalarKept(o, x.tok);
    ScalarDelivered(o, x.tok);
    assert Taken(o, x.tok) == p;
  }

  lemma TakesScalar(p: Parser, x: Lexeme)
    requires Placed(p) && Deep(p) && Good(x) && ScalarToken(x.tok) && (p.state == 6 || p.state == 8)
    ensures TakesToken(p, x)
  {
    ScalarTake(p, x);
    ScalarSofar(p, x);
    hide Take, AfterValue, Scalar, Placed, Sofar, Good;
    assert Pruned(Sofar(p), x) == Sofar(p) + [x];
  }

  lemma ScalarSofar(p: Parser, x: Lexeme)
    requires Placed(p) && Good(x) && ScalarToken(x.tok) && Awaits(p)
    requires Stacked(AfterValue(p, Scalar(x.tok, x.text)).stack) && CursorFits(AfterValue(p, Scalar(x.tok, x.text)))
    ensures var q := AfterValue(p, Scalar(x.tok, x.text));
      Placed(q) && Opened(q) == q && Sofar(q) == Sofar(p) + [x]
  {
    hide *;
    var v := Scalar(x.tok, x.text);
    PlacedParts(p);
    GoodParts(x);
    AfterTokens(p, v);
    ScalarTokens(x.tok, x.text);
    ScalarPlaced(p, v);
    AwaitsSofar(p);
    AfterSofar(AfterValue(p, v));
  }

  lemma PlacedParts(p: Parser)
    requires Placed(p)
    ensures Stacked(p.stack) && CursorFits(p) && p.lex == START
  {
  }

  lemma GoodParts(x: Lexeme)
    requires Good(x)
    ensures Plain(x) && x == Lexeme(x.tok, x.text)
  {
  }

  /** Right behind a value. */
  lemma AfterSofar(q: Parser)
    requires Stacked(q.stack) && CursorFits(q) && q.lex == START && (q.state == 3 || q.state == 9)
    requires q.stack != [] && Cursor(q.stack).kids != []
    ensures Placed(q) && Opened(q) == q && Sofar(q) == Trail(q.stack)
  {
    hide Stacked, Trail;
  }

  lemma AwaitsSofar(p: Parser)
    requires Placed(p) && Awaits(p)
    ensures Sofar(p) == Way(p.stack)
  {
    if p.state == 6 {
      LabelEmpty(p.stack);
      LabelWay(p.stack);
    }
    hide Way, Trail, Stacked;
  }

  lemma LabelEmpty(stack: seq<Json>)
    requires Stacked(stack) && stack != [] && Cursor(stack).kind == STRING
    ensures Cursor(stack).kids == []
  {
    assert Value(stack[|stack| - 1]);
  }

  lemma ScalarAwaits(p: Parser)
    requires Stacked(p.stack) && CursorFits(p) && (p.state == 6 || p.state == 8)
    ensures Awaits(p)
  {
    if p.state == 6 {
      LabelNotFirst(p.stack);
      assert SitsAt(p.stack, |p.stack| - 1);
    }
  }

  lemma ScalarPlaced(p: Parser, v: Json)
    requires Awaits(p) && p.lex == START
    ensures var q := AfterValue(p, v); q.lex == START && q.stack != [] && Cursor(q.stack).kids != []
    ensures AfterValue(p, v).state == if p.state == 6 then 3 else 9
  {
  }

  lemma OpeningTake(p: Parser, x: Lexeme)
    requires Placed(p) && Deep(p) && Good(x) && !Pending(p)
    requires x.tok == BeginObject || x.tok == BeginArray
    ensures var r, kind := Take(p, x), if x.tok == BeginObject then OBJECT else ARRAY;
      r.Going? ==>
        && (p.state == 0 || p.state == 6 || p.state == 8) && r.p == p.(state := if kind == OBJECT then 1 else 7)
        && Opened(r.p) == Parser(if kind == OBJECT then 2 else 8, START, p.stack + [Leaf(kind, "")])
        && CursorFits(r.p)
  {
    DeliverKept(p.(lex := Lex(0, x.text, 1)), x.tok);
    hide Stacked;
  }

  lemma TakesOpening(p: Parser, x: Lexeme)
    requires Placed(p) && Deep(p) && Good(x) && !Pending(p)
    requires x.tok == BeginObject || x.tok == BeginArray
    ensures TakesToken(p, x)
  {
    OpeningTake(p, x);
    var r := Take(p, x);
    if r.Going? {
      assert Placed(r.p) by { hide Take, Trail, Way; }
      OpenedPlaced(r.p);
      OpeningSofar(p, x);
      hide *;
      Adding(p, x, r.p);
    }
  }

  lemma OpeningSofar(p: Parser, x: Lexeme)
    requires Placed(p) && Good(x) && (p.state == 0 || p.state == 6 || p.state == 8)
    requires x.tok == BeginObject || x.tok == BeginArray
    ensures var kind := if x.tok == BeginObject then OBJECT else ARRAY;
      var q := Parser(if kind == OBJECT then 2 else 8, START, p.stack + [Leaf(kind, "")]);
      CursorFits(q) && Sofar(q) == Sofar(p) + [x]
  {
    hide *;
    var kind := if x.tok == BeginObject then OBJECT else ARRAY;
    LeafTrail(p.stack, kind);
    BeforeSofar(p);
    OpenSofar(p.stack, kind);
    OpenSign(x);
  }

  lemma OpenSign(x: Lexeme)
    requires Good(x) && (x.tok == BeginObject || x.tok == BeginArray)
    ensures x == Sign(x.tok)
  {
  }

  /** Where a container may begin. */
  lemma BeforeSofar(p: Parser)
    requires Placed(p) && (p.state == 0 || p.state == 6 || p.state == 8)
    ensures CursorFits(p) && Sofar(p) == Way(p.stack)
  {
    if p.state == 6 {
      LabelEmpty(p.stack);
      LabelWay(p.stack);
    }
    hide Stacked, Trail;
  }

  lemma OpenSofar(stack: seq<Json>, kind: Kind)
    requires kind == OBJECT || kind == ARRAY
    ensures var q := Parser(if kind == OBJECT then 2 else 8, START, stack + [Leaf(kind, "")]);
      CursorFits(q) && Sofar(q) == if kind == OBJECT then Trail(q.stack) else Way(q.stack)
  {
    hide Trail, Way;
  }

  lemma Adding(p: Parser, x: Lexeme, q: Parser)
    requires Placed(p) && !Pending(p) && Deep(p) && Take(p, x) == Going(q) && Placed(q) && x.tok != EndArray
    requires CursorFits(Opened(q)) && Sofar(Opened(q)) == Sofar(p) + [x]
    ensures TakesToken(p, x)
  {
    hide Placed, Sofar, Take;
  }

  lemma LeafTrail(stack: seq<Json>, kind: Kind)
    requires kind == OBJECT || kind == ARRAY
    ensures var s := stack + [Leaf(kind, "")];
      Trail(s) == Way(s) == Way(stack) + [Sign(if kind == OBJECT then BeginObject else BeginArray)]
  {
    var s := stack + [Leaf(kind, "")];
    assert s[..|stack|] == stack;
    assert Listed(Leaf(kind, ""), 0) == [];
    TrailOf(s);
    hide Way, Trail;
  }

  lemma TakesLabel(p: Parser, x: Lexeme)
    requires Placed(p) && Deep(p) && Good(x) && x.tok == Text && (p.state == 2 || p.state == 4)
    ensures TakesToken(p, x)
  {
    var q := Parser(5, START, p.stack + [Leaf(STRING, x.text)]);
    LabelKept(p.(lex := Lex(0, x.text, 1)));
    assert q.stack[..|p.stack|] == p.stack;
    TrailOf(p.stack);
    hide Stacked, Way, Trail;
    assert Take(p, x) == Going(q) && Placed(q);
    hide Take, Good;
    assert Sofar(q) == Sofar(p) + [x];
    hide *;
    assert Opened(q) == q by { NotPending(q); }
    Adding(p, x, q);
  }

  lemma NotPending(p: Parser)
    requires p.state != 1 && p.state != 7
    ensures Opened(p) == p
  {
  }

  lemma TakesColon(p: Parser, x: Lexeme)
    requires Placed(p) && Deep(p) && Good(x) && x.tok == NameSeparator && p.state == 5
    ensures TakesToken(p, x)
  {
    var q := p.(state := 6);
    hide Stacked, Way, Trail;
    assert Take(p, x) == Going(q) && Placed(q);
    ColonSofar(p);
    assert x == Sign(NameSeparator);
    hide *;
    assert Opened(q) == q by { NotPending(q); }
    Adding(p, x, q);
  }

  lemma ColonSofar(p: Parser)
    requires CursorFits(p) && p.state == 5
    ensures CursorFits(p.(state := 6)) && Sofar(p.(state := 6)) == Sofar(p) + [Sign(NameSeparator)]
  {
    var a, t := Way(p.stack[..|p.stack| - 1]), Lexeme(Text, Cursor(p.stack).text);
    TrailOf(p.stack);
    hide Way, Trail;
    assert a + [t, Sign(NameSeparator)] == a + [t] + [Sign(NameSeparator)];
  }

  lemma TakesComma(p: Parser, x: Lexeme)
    requires Placed(p) && Deep(p) && Good(x) && x.tok == ValueSeparator && (p.state == 3 || p.state == 9)
    ensures TakesToken(p, x)
  {
    var q := p.(state := if p.state == 3 then 4 else 8);
    hide Stacked, Way, Trail;
    assert Take(p, x) == Going(q) && Placed(q);
    TrailOf(p.stack);
    assert x == Sign(ValueSeparator);
    assert Sofar(q) == Sofar(p) + [x];
    hide *;
    assert Opened(q) == q by { NotPending(q); }
    Adding(p, x, q);
  }

  lemma TakesEnd(p: Parser, x: Lexeme)
    requires Placed(p) && Deep(p) && Good(x)
    requires if p.state == 2 || p.state == 3 then x.tok == EndObject
      else (p.state == 8 || p.state == 9) && x.tok == EndArray
    ensures TakesToken(p, x) && Take(p, x).Going?
  {
    var o := p.(lex := Lex(0, x.text, 1));
    EndDelivered(o, x.tok);
    LeaveTokens(o);
    if p.state == 8 || p.state == 9 {
      SpareInArray(p.stack);
    }
    hide Stacked, Way, Trail, Leave;
  }

  /** Every token keeps the invariant, and adds itself to the tokens so far. */
  lemma TakesAny(p: Parser, x: Lexeme)
    requires Placed(p) && !Pending(p) && Deep(p) && Good(x)
    ensures TakesToken(p, x)
  {
    hide Placed, Sofar, TakesToken, Stacked;
    if ScalarToken(x.tok) && (p.state == 6 || p.state == 8) {
      TakesScalar(p, x);
    } else if x.tok == BeginObject || x.tok == BeginArray {
      TakesOpening(p, x);
    } else if x.tok == Text && (p.state == 2 || p.state == 4) {
      TakesLabel(p, x);
    } else if x.tok == NameSeparator && p.state == 5 {
      TakesColon(p, x);
    } else if x.tok == ValueSeparator && (p.state == 3 || p.state == 9) {
      TakesComma(p, x);
    } else if (x.tok == EndObject && (p.state == 2 || p.state == 3))
        || (x.tok == EndArray && (p.state == 8 || p.state == 9)) {
      TakesEnd(p, x);
    } else {
      TakesNothing(p, x);
    }
  }

  lemma TakesNothing(p: Parser, x: Lexeme)
    requires Placed(p) && !Pending(p) && Deep(p) && Good(x) && x.tok != BeginObject && x.tok != BeginArray
    requires !(ScalarToken(x.tok) && (p.state == 6 || p.state == 8))
    requires !(x.tok == Text && (p.state == 2 || p.state == 4)) && !(x.tok == NameSeparator && p.state == 5)
    requires !(x.tok == ValueSeparator && (p.state == 3 || p.state == 9))
    requires !(x.tok == EndObject && (p.state == 2 || p.state == 3))
    requires !(x.tok == EndArray && (p.state == 8 || p.state == 9))
    ensures TakesToken(p, x)
  {
    assert Take(p, x).Failed?;
  }

  // Whole sequences

  predicate AllGood(ts: seq<Lexeme>) {
    forall i :: 0 <= i < |ts| ==> Good(ts[i])
  }

  lemma TakeOpened(p: Parser, x: Lexeme)
    requires Deep(p)
    ensures Deep(Opened(p)) && Take(Opened(p), x) == Take(p, x)
  {
  }

  lemma TakeAllMore(ts: seq<Lexeme>, x: Lexeme)
    ensures TakeAll(ts + [x]) == match TakeAll(ts) case Failed(code) => Failed(code) case Going(p) => Take(p, x)
  {
    assert (ts + [x])[..|ts|] == ts;
  }

  /** After any sequence of tokens, where the parser is tells what they were, but for the spare commas. */
  lemma {:induction false} TokensTold(ts: seq<Lexeme>)
    requires AllGood(ts)
    ensures TakeAll(ts).Going? ==>
      var p := TakeAll(ts).p;
      Placed(p) && (OpenedPlaced(p); Prune(ts) == Sofar(Opened(p)))
    decreases |ts|
  {
    if ts != [] {
      var n := |ts| - 1;
      TokensTold(ts[..n]);
      if TakeAll(ts).Going? {
        var p := TakeAll(ts[..n]).p;
        OpenedPlaced(p);
        TakeOpened(p, ts[n]);
        TakesAny(Opened(p), ts[n]);
        hide Take, Placed, Sofar, Pruned, Opened, Good;
      }
    }
  }

  lemma EndArrayTake(p: Parser, x: Lexeme)
    requires Placed(p) && Deep(p) && x == Sign(EndArray)
    ensures Take(p, x).Going? ==> Opened(p).state == 8 || Opened(p).state == 9
    ensures p.state == 8 || p.state == 9 ==> p.stack != [] && Take(p, x) == Leave(p)
  {
    OpenedPlaced(p);
    hide Stacked, Leave;
  }

  lemma CommaTake(p: Parser, x: Lexeme)
    requires Placed(p) && Deep(p) && x == Sign(ValueSeparator)
    ensures Take(p, x).Going? ==>
      (p.state == 3 && Take(p, x).p == p.(state := 4)) || (p.state == 9 && Take(p, x).p == p.(state := 8))
    ensures p.state == 9 ==> Take(p, x).Going?
  {
    hide Stacked, Label, LabelValue, Item, Leave;
  }

  lemma LeaveAnyway(p: Parser, q: Parser)
    requires p.stack != [] && q == p.(state := q.state)
    ensures Leave(p) == Leave(q)
  {
  }

  lemma PruneLast(ts: seq<Lexeme>)
    requires ts != []
    ensures var u := Prune(ts); u != [] && u[|u| - 1] == ts[|ts| - 1]
  {
  }

  lemma WayEnds(stack: seq<Json>)
    requires stack != [] && Cursor(stack).kind == ARRAY
    ensures var u := Way(stack); u != [] && (u[|u| - 1].tok == ValueSeparator || u[|u| - 1].tok == BeginArray)
  {
    var j := Cursor(stack);
    TrailOf(stack);
    if j.kids == [] {
      assert Listed(j, 0) == [] && Opening(j) == [Sign(BeginArray)];
    }
    hide Way, Trail, Opening, Listed;
  }

  /** Right behind a comma or an opening bracket, so is the parser. */
  lemma InArray(w: seq<Lexeme>)
    requires AllGood(w) && w != [] && w[|w| - 1].tok != ValueSeparator && w[|w| - 1].tok != BeginArray
    ensures TakeAll(w).Going? ==> Opened(TakeAll(w).p).state != 8
  {
    TokensTold(w);
    if TakeAll(w).Going? {
      var p := TakeAll(w).p;
      OpenedPlaced(p);
      PruneLast(w);
      hide TakeAll, Prune, Way, Trail, Good;
      if Opened(p).state == 8 { WayEnds(Opened(p).stack); }
    }
  }

  /** A comma to spare, and then a closing bracket, do what the closing bracket does. */
  lemma SpareTake(w: seq<Lexeme>)
    requires AllGood(w) && w != [] && w[|w| - 1].tok != ValueSeparator && w[|w| - 1].tok != BeginArray
    ensures var a, b := TakeAll(w + [Sign(ValueSeparator)] + [Sign(EndArray)]), TakeAll(w + [Sign(EndArray)]);
      a.Going? || b.Going? ==> a == b
  {
    var comma, end := Sign(ValueSeparator), Sign(EndArray);
    TakeAllMore(w + [comma], end);
    TakeAllMore(w, comma);
    TakeAllMore(w, end);
    InArray(w);
    TokensTold(w);
    if TakeAll(w).Going? {
      hide TakeAll, Prune, Sofar;
      SpareStep(TakeAll(w).p);
    }
  }

  lemma SpareStep(p: Parser)
    requires Placed(p) && Deep(p) && Opened(p).state != 8
    ensures var comma, end := Take(p, Sign(ValueSeparator)), Take(p, Sign(EndArray));
      end.Going? || (comma.Going? && Take(comma.p, Sign(EndArray)).Going?) ==>
        comma.Going? && Take(comma.p, Sign(EndArray)) == end
  {
    var comma := Take(p, Sign(ValueSeparator));
    EndArrayTake(p, Sign(EndArray));
    CommaTake(p, Sign(ValueSeparator));
    hide Take, Stacked;
    if comma.Going? {
      assert Placed(comma.p);
      EndArrayTake(comma.p, Sign(EndArray));
      if p.state == 9 { LeaveAnyway(p, comma.p); }
    }
  }

  lemma PruneStep(ts: seq<Lexeme>, u: seq<Lexeme>, x: Lexeme)
    requires AllGood(ts) && AllGood(u) && Good(x)
    requires TakeAll(ts).Going? || TakeAll(u).Going? ==> TakeAll(ts) == TakeAll(u)
    ensures AllGood(Pruned(u, x))
    ensures TakeAll(ts + [x]).Going? || TakeAll(Pruned(u, x)).Going? ==> TakeAll(ts + [x]) == TakeAll(Pruned(u, x))
  {
    TakeAllMore(ts, x);
    TakeAllMore(u, x);
    hide TakeAll, Take, Good;
    if x.tok == EndArray && SpareComma(u) {
      var w := u[..|u| - 1];
      assert Good(u[|u| - 1]);
      SpareSign(u[|u| - 1]);
      SpareSign(x);
      assert u == w + [Sign(ValueSeparator)];
      SpareTake(w);
    }
  }

  lemma SpareSign(x: Lexeme)
    requires Good(x) && (x.tok == ValueSeparator || x.tok == EndArray)
    ensures x == Sign(x.tok)
  {
  }

  /** The parser does not notice spare commas. */
  lemma {:induction false} PruneSame(ts: seq<Lexeme>)
    requires AllGood(ts)
    ensures AllGood(Prune(ts))
    ensures TakeAll(ts).Going? || TakeAll(Prune(ts)).Going? ==> TakeAll(ts) == TakeAll(Prune(ts))
    decreases |ts|
  {
    hide TakeAll, Pruned, Good;
    if ts != [] {
      var n := |ts| - 1;
      PruneSame(ts[..n]);
      PruneStep(ts[..n], Prune(ts[..n]), ts[n]);
      assert ts == ts[..n] + [ts[n]];
    }
  }
}
