/** Printing a document tree, and reading it back. */
module JsonPrint {
  import opened JsonLexer
  import opened JsonParser
  import opened JsonFragments
  import opened JsonTrees

  function Quoted(text: string): string {
    "\"" + text + "\""
  }

  function Word(kind: Kind): string {
    match kind
    case TRUE => "true"
    case FALSE => "false"
    case _ => "null"
  }

  /** The text of a node; a label is followed by a colon and its value. */
  function Print(j: Json, tag: bool): string
    decreases j, |j.kids| + 1
  {
    match j.kind
    case STRING => Quoted(j.text) + (if tag then ":" else "") + PrintFrom(j, 0)
    case NUMBER => j.text
    case OBJECT => "{" + PrintFrom(j, 0) + "}"
    case ARRAY => "[" + PrintFrom(j, 0) + "]"
    case _ => Word(j.kind)
  }

  /** The text of the children from number `i` on. */
  function PrintFrom(j: Json, i: nat): string
    requires i <= |j.kids|
    decreases j, |j.kids| - i
  {
    if i == |j.kids| then "" else
      (if i > 0 then "," else "") + Print(j.kids[i], j.kind == OBJECT) + PrintFrom(j, i + 1)
  }

  /** Outside any token, with nothing collected. */
  predicate Idle(p: Parser) {
    p.lex.state == 0 && p.lex.text == ""
  }

  /** A value may come next. */
  predicate Awaits(p: Parser) {
    || (p.state == 6 && |p.stack| >= 2 && Cursor(p.stack).kind == STRING && p.stack[|p.stack| - 2].kind == OBJECT)
    || (p.state == 8 && |p.stack| >= 1 && Cursor(p.stack).kind == ARRAY)
  }

  /** The parser after value `v`. */
  function AfterValue(p: Parser, v: Json): Parser
    requires Awaits(p)
  {
    if p.state == 6 then p.(state := 3, stack := Up(Insert(p.stack, v)))
        else p.(state := 9, stack := Insert(p.stack, v))
  }

  lemma AwaitsDeep(p: Parser)
    requires Awaits(p)
    ensures Deep(p) && !Pending(p)
  {
  }

  // Texts and words

  lemma {:induction false} EatString(p: Parser, t: string)
    requires Deep(p) && !Pending(p) && p.lex.state == 1 && p.lex.text == "" && StringState(t) != 0
    ensures Steps(p, t) == Going(p.(lex := Lex(StringState(t), t, p.lex.line)))
    decreases |t|
  {
    if t != [] {
      var n := |t| - 1;
      EatString(p, t[..n]);
      StringStates(t[..n]);
      assert t == t[..n] + [t[n]];
      StepsAppend(p, t[..n], [t[n]]);
    }
  }

  lemma {:induction false} EatNumber(p: Parser, t: string)
    requires Deep(p) && !Pending(p) && Idle(p) && NumberState(t) != 0
    ensures Steps(p, t) == Going(p.(lex := Lex(NumberState(t), t, p.lex.line)))
    decreases |t|
  {
    if |t| == 1 {
      assert Steps(p, t) == Steps(StepChar(p, t[0]).p, []);
    } else {
      var n := |t| - 1;
      EatNumber(p, t[..n]);
      NumberStates(t[..n]);
      assert t == t[..n] + [t[n]];
      StepsAppend(p, t[..n], [t[n]]);
      EatDigit(p.(lex := Lex(NumberState(t[..n]), t[..n], p.lex.line)), t[n]);
    }
  }

  lemma EatDigit(p: Parser, c: char)
    requires Deep(p) && !Pending(p) && 17 <= p.lex.state <= 24 && NumberNext(p.lex.state, c) != 0
    ensures Steps(p, [c]) == Going(p.(lex := Lex(NumberNext(p.lex.state, c), p.lex.text + [c], p.lex.line)))
  {
    InsideNumber(p.lex.state, c);
    NumberContinues(p.lex, c);
    OneChar(p, c, Lex(NumberNext(p.lex.state, c), p.lex.text + [c], p.lex.line));
  }

  lemma InsideNumber(state: nat, c: char)
    requires NumberNext(state, c) != 0
    ensures !Blank(c) && !Closes(c)
  {
  }

  lemma NumberContinues(l: Lex, c: char)
    requires 17 <= l.state <= 24 && NumberNext(l.state, c) != 0 && !Blank(c) && !Closes(c)
    ensures LexChar(l, c) == Eat(Lex(NumberNext(l.state, c), l.text + [c], l.line))
  {
  }

  lemma OneChar(p: Parser, c: char, l: Lex)
    requires Deep(p) && !Pending(p) && LexChar(p.lex, c) == Eat(l)
    ensures Steps(p, [c]) == Going(p.(lex := l))
  {
    assert Steps(p.(lex := l), [c][1..]) == Going(p.(lex := l));
  }

  /** One character, then the rest. */
  lemma OneStep(p: Parser, c: char, rest: string)
    requires Deep(p)
    ensures Steps(p, [c] + rest) == var r := StepChar(p, c); if r.Failed? then r else Steps(r.p, rest)
  {
    assert ([c] + rest)[1..] == rest;
  }

  /** A character that is a token by itself. */
  lemma TokenStep(p: Parser, c: char, tok: Token, q: Parser, rest: string)
    requires Deep(p) && !Pending(p) && LexChar(p.lex, c) == Emit(tok, p.lex, true) && Deliver(p, tok) == Going(q)
    ensures Deep(q) && Steps(p, [c] + rest) == Steps(q, rest)
  {
    DeliverDeep(p, tok);
    OneStep(p, c, rest);
  }

  /** A quoted text is one token. */
  lemma ReadText(p: Parser, t: string)
    requires Deep(p) && !Pending(p) && Idle(p) && StringText(t)
    ensures Steps(p, Quoted(t)) == Deliver(p.(lex := p.lex.(text := t)), Text)
  {
    var p1 := p.(lex := p.lex.(state := 1));
    OneStep(p, '\"', t + "\"");
    assert Quoted(t) == ['\"'] + (t + "\"");
    assert StepChar(p, '\"') == Going(p1);
    EatString(p1, t);
    StepsAppend(p1, t, "\"");
    CloseQuote(p1.(lex := Lex(1, t, p.lex.line)));
  }

  lemma CloseQuote(p: Parser)
    requires Deep(p) && !Pending(p) && p.lex.state == 1
    ensures Steps(p, "\"") == Deliver(p.(lex := p.lex.(state := 0)), Text)
  {
    OneStep(p, '\"', []);
    assert "\"" == ['\"'] + [];
    DeliverDeep(p.(lex := p.lex.(state := 0)), Text);
  }

  function WordToken(kind: Kind): Token {
    match kind
    case TRUE => True
    case FALSE => False
    case _ => Null
  }

  /** The first letter of a word. */
  lemma FirstLetter(p: Parser, c: char, state: nat, rest: string)
    requires Deep(p) && !Pending(p) && Idle(p)
    requires (c == 't' && state == 7) || (c == 'f' && state == 10) || (c == 'n' && state == 14)
    ensures Steps(p, [c] + rest) == Steps(p.(lex := p.lex.(state := state)), rest)
  {
    assert LexChar(p.lex, c) == Eat(p.lex.(state := state));
    OneStep(p, c, rest);
  }

  lemma NextLetter(p: Parser, c: char, rest: string)
    requires Deep(p) && !Pending(p) && 7 <= p.lex.state <= 16 && WordNext(p.lex.state) == (c, More)
    ensures Steps(p, [c] + rest) == Steps(p.(lex := p.lex.(state := p.lex.state + 1)), rest)
  {
    assert LexChar(p.lex, c) == Eat(p.lex.(state := p.lex.state + 1));
    OneStep(p, c, rest);
  }

  lemma LastLetter(p: Parser, c: char, tok: Token)
    requires Deep(p) && !Pending(p) && 7 <= p.lex.state <= 16 && WordNext(p.lex.state) == (c, tok) && tok != More
    ensures Steps(p, [c]) == Deliver(p.(lex := p.lex.(state := 0)), tok)
  {
    assert LexChar(p.lex, c) == Emit(tok, p.lex.(state := 0), true);
    DeliverDeep(p.(lex := p.lex.(state := 0)), tok);
    OneStep(p, c, []);
    assert [c] + [] == [c];
  }

  function InState(p: Parser, state: nat): Parser {
    p.(lex := p.lex.(state := state))
  }

  lemma ReadTrue(p: Parser)
    requires Deep(p) && !Pending(p) && Idle(p)
    ensures Steps(p, "true") == Deliver(p, True)
  {
    assert "true" == ['t'] + "rue" && "rue" == ['r'] + "ue" && "ue" == ['u'] + "e" && "e" == ['e'];
    FirstLetter(p, 't', 7, "rue");
    NextLetter(InState(p, 7), 'r', "ue");
    NextLetter(InState(p, 8), 'u', "e");
    LastLetter(InState(p, 9), 'e', True);
    assert InState(p, 0) == p;
  }

  lemma ReadFalse(p: Parser)
    requires Deep(p) && !Pending(p) && Idle(p)
    ensures Steps(p, "false") == Deliver(p, False)
  {
    assert "false" == ['f'] + "alse" && "alse" == ['a'] + "lse" && "lse" == ['l'] + "se" && "se" == ['s'] + "e"
        && "e" == ['e'];
    FirstLetter(p, 'f', 10, "alse");
    NextLetter(InState(p, 10), 'a', "lse");
    NextLetter(InState(p, 11), 'l', "se");
    NextLetter(InState(p, 12), 's', "e");
    LastLetter(InState(p, 13), 'e', False);
    assert InState(p, 0) == p;
  }

  lemma ReadNull(p: Parser)
    requires Deep(p) && !Pending(p) && Idle(p)
    ensures Steps(p, "null") == Deliver(p, Null)
  {
    assert "null" == ['n'] + "ull" && "ull" == ['u'] + "ll" && "ll" == ['l'] + "l" && "l" == ['l'];
    FirstLetter(p, 'n', 14, "ull");
    NextLetter(InState(p, 14), 'u', "ll");
    NextLetter(InState(p, 15), 'l', "l");
    LastLetter(InState(p, 16), 'l', Null);
    assert InState(p, 0) == p;
  }

  lemma ReadWord(p: Parser, kind: Kind)
    requires Deep(p) && !Pending(p) && Idle(p)
    ensures Steps(p, Word(kind)) == Deliver(p, WordToken(kind))
  {
    match kind
    case TRUE => ReadTrue(p);
    case FALSE => ReadFalse(p);
    case _ => ReadNull(p);
  }

  /** A scalar token puts its value in its place. */
  lemma ScalarDelivered(p: Parser, tok: Token)
    requires Awaits(p) && ScalarToken(tok)
    ensures Deep(p) && Deliver(p, tok) == Going(AfterValue(Taken(p, tok), Scalar(tok, p.lex.text)))
  {
    if p.state == 6 {
      LabelDelivers(p, tok);
    } else {
      ItemDelivers(p, tok);
    }
  }

  lemma LabelDelivers(p: Parser, tok: Token)
    requires Awaits(p) && p.state == 6 && ScalarToken(tok)
    ensures Deep(p) && Deliver(p, tok) == LabelValue(p, tok)
  {
  }

  lemma ItemDelivers(p: Parser, tok: Token)
    requires Awaits(p) && p.state == 8 && ScalarToken(tok)
    ensures Deep(p) && Deliver(p, tok) == Item(p, tok)
  {
  }

  lemma NumberDelivered(p: Parser, t: string)
    requires Awaits(p) && Idle(p)
    ensures Deep(p) && Deep(AfterValue(p, Leaf(NUMBER, t)))
    ensures Deliver(p.(lex := p.lex.(text := t)), Number) == Going(AfterValue(p, Leaf(NUMBER, t)))
  {
    AfterDeep(p, Leaf(NUMBER, t));
    ScalarDelivered(p.(lex := p.lex.(text := t)), Number);
    assert Taken(p.(lex := p.lex.(text := t)), Number) == p;
  }

  /** A number ends where the next character closes it, and that character is read again. */
  lemma ReadNumber(p: Parser, t: string, rest: string)
    requires Awaits(p) && Idle(p) && NumberText(t) && rest != [] && Closes(rest[0])
    ensures Deep(AfterValue(p, Leaf(NUMBER, t))) && Steps(p, t + rest) == Steps(AfterValue(p, Leaf(NUMBER, t)), rest)
  {
    AwaitsDeep(p);
    EatNumber(p, t);
    StepsAppend(p, t, rest);
    var p1 := p.(lex := Lex(NumberState(t), t, p.lex.line));
    NumberStates(t);
    assert LexChar(p1.lex, rest[0]) == Emit(Number, p1.lex.(state := 0), false);
    NumberDelivered(p, t);
    assert StepChar(p1, rest[0]) == StepChar(AfterValue(p, Leaf(NUMBER, t)), rest[0]);
  }

  // Values

  /** Followed by a comma or a closing bracket, the value is read as a whole. */
  predicate Reads(p: Parser, v: Json, rest: string)
    requires Awaits(p)
  {
    AfterDeep(p, v);
    AwaitsDeep(p);
    Steps(p, Print(v, false) + rest) == Steps(AfterValue(p, v), rest)
  }

  lemma AfterDeep(p: Parser, v: Json)
    requires Awaits(p)
    ensures Deep(AfterValue(p, v))
  {
  }

  /** Scalars other than numbers are one token. */
  lemma ReadScalar(p: Parser, v: Json, rest: string)
    requires Awaits(p) && Idle(p) && Value(v) && v.kind != NUMBER && v.kind != OBJECT && v.kind != ARRAY
    ensures Reads(p, v, rest)
  {
    AwaitsDeep(p);
    AfterDeep(p, v);
    StepsAppend(p, Print(v, false), rest);
    if v.kind == STRING {
      ReadText(p, v.text);
      PlainText(v);
      TextDelivered(p, v);
    } else {
      ReadWord(p, v.kind);
      WordDelivered(p, v);
    }
  }

  lemma PlainText(v: Json)
    requires v.kind == STRING && v.kids == []
    ensures Print(v, false) == Quoted(v.text)
  {
    assert PrintFrom(v, 0) == "";
  }

  lemma TextDelivered(p: Parser, v: Json)
    requires Awaits(p) && Idle(p) && v == Leaf(STRING, v.text)
    ensures Deep(p) && Deliver(p.(lex := p.lex.(text := v.text)), Text) == Going(AfterValue(p, v))
  {
    ScalarDelivered(p.(lex := p.lex.(text := v.text)), Text);
    assert Taken(p.(lex := p.lex.(text := v.text)), Text) == p;
  }

  lemma WordDelivered(p: Parser, v: Json)
    requires Awaits(p) && v == Leaf(v.kind, "") && (v.kind == TRUE || v.kind == FALSE || v.kind == NULL)
    ensures Deep(p) && Deliver(p, WordToken(v.kind)) == Going(AfterValue(p, v))
  {
    ScalarDelivered(p, WordToken(v.kind));
    WordScalar(v.kind, p.lex.text);
  }

  lemma WordScalar(kind: Kind, text: string)
    requires kind == TRUE || kind == FALSE || kind == NULL
    ensures Scalar(WordToken(kind), text) == Leaf(kind, "") && WordToken(kind) != Text && WordToken(kind) != Number
  {
  }

  /** The parser inside container `v`, after its first `i` children. */
  function Inside(base: seq<Json>, lex: Lex, v: Json, i: nat): Parser
    requires i <= |v.kids|
  {
    Parser(if v.kind == OBJECT then (if i == 0 then 2 else 3) else if i == 0 then 8 else 9, lex,
        base + [v.(kids := v.kids[..i])])
  }

  function Closing(v: Json): string {
    if v.kind == OBJECT then "}" else "]"
  }

  /** The parser before child `i`: past the comma, and past the label in an object. */
  function Before(base: seq<Json>, lex: Lex, v: Json, i: nat): Parser
    requires i < |v.kids|
  {
    var s := base + [v.(kids := v.kids[..i])];
    if v.kind == OBJECT then Parser(6, lex, s + [Leaf(STRING, v.kids[i].text)]) else Parser(8, lex, s)
  }

  /** The value of child `i`. */
  function ValueAt(v: Json, i: nat): Json
    requires i < |v.kids| && (v.kind == OBJECT ==> |v.kids[i].kids| == 1)
  {
    if v.kind == OBJECT then v.kids[i].kids[0] else v.kids[i]
  }

  /** After the value of child `i`, the parser has the first `i + 1` children. */
  lemma ChildDone(base: seq<Json>, lex: Lex, v: Json, i: nat)
    requires i < |v.kids| && (v.kind == OBJECT || v.kind == ARRAY)
    requires v.kind == OBJECT ==> v.kids[i].kind == STRING && |v.kids[i].kids| == 1
    ensures Awaits(Before(base, lex, v, i))
    ensures AfterValue(Before(base, lex, v, i), ValueAt(v, i)) == Inside(base, lex, v, i + 1)
  {
    var p := Before(base, lex, v, i);
    var w := v.(kids := v.kids[..i]);
    assert v.kids[..i] + [v.kids[i]] == v.kids[..i + 1];
    if v.kind == OBJECT {
      var tag := Leaf(STRING, v.kids[i].text);
      assert Add(tag, ValueAt(v, i)) == v.kids[i] by { assert [] + [ValueAt(v, i)] == v.kids[i].kids; }
      assert Insert(p.stack, ValueAt(v, i)) == base + [w] + [v.kids[i]];
      assert (base + [w] + [v.kids[i]])[..|base| + 1] == base + [w];
      assert Insert(base + [w], v.kids[i]) == base + [Add(w, v.kids[i])];
    } else {
      assert Insert(p.stack, v.kids[i]) == base + [Add(w, v.kids[i])];
    }
  }

  /** What stands before the value of child `i`. */
  function Lead(v: Json, i: nat): string
    requires i < |v.kids|
  {
    (if i > 0 then "," else "") + (if v.kind == OBJECT then Quoted(v.kids[i].text) + ":" else "")
  }

  predicate Container(v: Json) {
    (v.kind == OBJECT || v.kind == ARRAY) && Value(v)
  }

  /** The children from `i` on: the first one, and the others. */
  lemma PrintFirst(v: Json, i: nat)
    requires Container(v) && i < |v.kids|
    ensures v.kind == OBJECT ==> Member(v.kids[i])
    ensures PrintFrom(v, i) == Lead(v, i) + Print(ValueAt(v, i), false) + PrintFrom(v, i + 1)
  {
    if v.kind == OBJECT {
      var kid := v.kids[i];
      assert Member(kid);
      assert PrintFrom(kid, 1) == ""
          && PrintFrom(kid, 0) == "" + Print(kid.kids[0], false) + "" == Print(kid.kids[0], false);
      assert Print(kid, true) == Quoted(kid.text) + ":" + Print(kid.kids[0], false);
      Regroup(if i > 0 then "," else "", Quoted(kid.text) + ":", Print(kid.kids[0], false), PrintFrom(v, i + 1));
    } else {
      Regroup(if i > 0 then "," else "", "", Print(v.kids[i], false), PrintFrom(v, i + 1));
    }
  }

  lemma Regroup(a: string, b: string, c: string, d: string)
    ensures a + (b + c) + d == (a + b) + c + d
    ensures "" + c == c
  {
  }

  lemma InsideDeep(base: seq<Json>, lex: Lex, v: Json, i: nat)
    requires i <= |v.kids|
    ensures Deep(Inside(base, lex, v, i)) && !Pending(Inside(base, lex, v, i))
  {
  }

  /** The comma between children. */
  lemma ReadComma(p: Parser, rest: string)
    requires (p.state == 3 || p.state == 9) && p.stack != [] && p.lex.state == 0
    ensures Steps(p, "," + rest) == Steps(p.(state := if p.state == 3 then 4 else 8), rest)
  {
    TokenStep(p, ',', ValueSeparator, p.(state := if p.state == 3 then 4 else 8), rest);
    assert "," == [','];
  }

  lemma ReadColon(p: Parser, rest: string)
    requires p.state == 5 && |p.stack| >= 2 && p.lex.state == 0
    ensures Steps(p, ":" + rest) == Steps(p.(state := 6), rest)
  {
    TokenStep(p, ':', NameSeparator, p.(state := 6), rest);
    assert ":" == [':'];
  }

  /** A label and its colon. */
  lemma ReadLabel(p: Parser, t: string, rest: string)
    requires (p.state == 2 || p.state == 4) && p.stack != [] && Idle(p) && StringText(t)
    ensures Steps(p, Quoted(t) + ":" + rest) == Steps(Parser(6, p.lex, p.stack + [Leaf(STRING, t)]), rest)
  {
    var q := Parser(5, p.lex, p.stack + [Leaf(STRING, t)]);
    ReadText(p, t);
    LabelDelivered(p, t);
    StepsAppend(p, Quoted(t), ":" + rest);
    assert Quoted(t) + ":" + rest == Quoted(t) + (":" + rest);
    ReadColon(q, rest);
  }

  lemma LabelDelivered(p: Parser, t: string)
    requires (p.state == 2 || p.state == 4) && p.stack != [] && Idle(p)
    ensures Deliver(p.(lex := p.lex.(text := t)), Text) == Going(Parser(5, p.lex, p.stack + [Leaf(STRING, t)]))
  {
  }

  lemma ReadLead(base: seq<Json>, lex: Lex, v: Json, i: nat, rest: string)
    requires Container(v) && i < |v.kids| && lex.state == 0 && lex.text == ""
    ensures Deep(Inside(base, lex, v, i)) && Deep(Before(base, lex, v, i))
    ensures Steps(Inside(base, lex, v, i), Lead(v, i) + rest) == Steps(Before(base, lex, v, i), rest)
  {
    var p := Inside(base, lex, v, i);
    var tag := if v.kind == OBJECT then Quoted(v.kids[i].text) + ":" else "";
    var q := if i == 0 then p else p.(state := if p.state == 3 then 4 else 8);
    if i > 0 {
      assert Lead(v, i) + rest == "," + (tag + rest);
      ReadComma(p, tag + rest);
    } else {
      assert Lead(v, i) + rest == tag + rest;
    }
    if v.kind == OBJECT {
      assert Member(v.kids[i]);
      ReadLabel(q, v.kids[i].text, rest);
    } else {
      assert tag + rest == rest;
    }
  }

  /** The parser once container `v` has ended. */
  function Outside(base: seq<Json>, lex: Lex, v: Json): Parser
    requires Opens(base)
  {
    if base == [] then Parser(99, lex, [v])
        else AfterValue(Parser(if Cursor(base).kind == STRING then 6 else 8, lex, base), v)
  }

  /** A container may be opened here. */
  predicate Opens(base: seq<Json>) {
    base == [] || Awaits(Parser(if Cursor(base).kind == STRING then 6 else 8, START, base))
  }

  lemma OutsideDeep(base: seq<Json>, lex: Lex, v: Json)
    requires Opens(base)
    ensures Deep(Outside(base, lex, v))
  {
  }

  lemma LeaveOutside(base: seq<Json>, lex: Lex, v: Json)
    requires Opens(base) && Container(v)
    ensures Leave(Inside(base, lex, v, |v.kids|)) == Going(Outside(base, lex, v))
  {
    var p := Inside(base, lex, v, |v.kids|);
    assert v.(kids := v.kids[..|v.kids|]) == v;
    if base == [] {
      assert base + [v] == [v];
    } else {
      assert p.stack[..|base|] == base;
      assert Up(p.stack) == Insert(base, v);
      LeaveLabel(base, v);
    }
  }

  lemma LeaveLabel(base: seq<Json>, v: Json)
    requires Opens(base) && base != []
    ensures Cursor(Insert(base, v)).kind == Cursor(base).kind
    ensures Cursor(base).kind == STRING ==> |base| >= 2 && Cursor(Up(Insert(base, v))).kind == OBJECT
  {
  }

  lemma EndDelivered(p: Parser, tok: Token)
    requires p.stack != []
    requires if p.state == 2 || p.state == 3 then tok == EndObject
        else (p.state == 8 || p.state == 9) && tok == EndArray
    ensures Deliver(p, tok) == Leave(p)
  {
  }

  /** The closing bracket. */
  lemma ReadClosing(base: seq<Json>, lex: Lex, v: Json, rest: string)
    requires Opens(base) && Container(v) && lex.state == 0
    ensures Deep(Inside(base, lex, v, |v.kids|)) && Deep(Outside(base, lex, v))
    ensures Steps(Inside(base, lex, v, |v.kids|), Closing(v) + rest) == Steps(Outside(base, lex, v), rest)
  {
    hide Steps, Outside, Leave, Value, Deliver;
    var p := Inside(base, lex, v, |v.kids|);
    InsideDeep(base, lex, v, |v.kids|);
    LeaveOutside(base, lex, v);
    OutsideDeep(base, lex, v);
    var c := if v.kind == OBJECT then '}' else ']';
    assert Closing(v) == [c];
    EndDelivered(p, Mark(c));
    TokenStep(p, c, Mark(c), Outside(base, lex, v), rest);
  }

  /** One child, once its value is read. */
  lemma ReadChild(base: seq<Json>, lex: Lex, v: Json, i: nat, rest: string)
    requires Container(v) && i < |v.kids| && lex.state == 0 && lex.text == ""
    requires v.kind == OBJECT ==> Member(v.kids[i])
    requires Awaits(Before(base, lex, v, i)) && Reads(Before(base, lex, v, i), ValueAt(v, i), rest)
    ensures Deep(Inside(base, lex, v, i)) && Deep(Inside(base, lex, v, i + 1))
    ensures Steps(Inside(base, lex, v, i),
        Lead(v, i) + (Print(ValueAt(v, i), false) + rest)) == Steps(Inside(base, lex, v, i + 1), rest)
  {
    InsideDeep(base, lex, v, i);
    InsideDeep(base, lex, v, i + 1);
    ReadLead(base, lex, v, i, Print(ValueAt(v, i), false) + rest);
    ChildDone(base, lex, v, i);
  }

  /** The text from child `i` on. */
  lemma PrintRest(v: Json, i: nat, tail: string)
    requires Container(v) && i < |v.kids|
    ensures v.kind == OBJECT ==> Member(v.kids[i])
    ensures PrintFrom(v, i) + tail == Lead(v, i) + (Print(ValueAt(v, i), false) + (PrintFrom(v, i + 1) + tail))
  {
    PrintFirst(v, i);
    Regroup2(Lead(v, i), Print(ValueAt(v, i), false), PrintFrom(v, i + 1), tail);
  }

  /** The value of a child is a value, and may come after its lead. */
  lemma ChildAwaits(base: seq<Json>, lex: Lex, v: Json, i: nat)
    requires Container(v) && i < |v.kids| && lex.state == 0 && lex.text == ""
    requires v.kind == OBJECT ==> Member(v.kids[i])
    ensures Awaits(Before(base, lex, v, i)) && Idle(Before(base, lex, v, i)) && Value(ValueAt(v, i))
  {
    ChildDone(base, lex, v, i);
  }

  /** All children of a container from `i` on, and its closing bracket. */
  lemma {:induction false} ReadKids(base: seq<Json>, lex: Lex, v: Json, i: nat, rest: string)
    requires Opens(base) && Container(v) && i <= |v.kids| && lex.state == 0 && lex.text == ""
    ensures Deep(Inside(base, lex, v, i)) && Deep(Outside(base, lex, v))
    ensures Steps(Inside(base, lex, v, i), PrintFrom(v, i) + (Closing(v) + rest)) == Steps(Outside(base, lex, v), rest)
    decreases v, |v.kids| - i
  {
    hide Steps, Print, PrintFrom, Inside, Outside, Before, Lead, Closing, Container, Value, Member, Deep, Awaits,
        AfterValue, Opens, Idle;
    InsideDeep(base, lex, v, i);
    OutsideDeep(base, lex, v);
    if i == |v.kids| {
      ReadClosing(base, lex, v, rest);
      NothingLeft(v, Closing(v) + rest);
    } else {
      var rest1 := PrintFrom(v, i + 1) + (Closing(v) + rest);
      PrintRest(v, i, Closing(v) + rest);
      ChildAwaits(base, lex, v, i);
      RestCloses(v, i + 1, rest);
      ReadValue(Before(base, lex, v, i), ValueAt(v, i), rest1);
      ReadChild(base, lex, v, i, rest1);
      ReadKids(base, lex, v, i + 1, rest);
    }
  }

  lemma NothingLeft(v: Json, tail: string)
    ensures PrintFrom(v, |v.kids|) + tail == tail
  {
  }

  lemma Regroup2(a: string, b: string, c: string, d: string)
    ensures a + b + c + d == a + (b + (c + d))
  {
  }

  lemma RestCloses(v: Json, i: nat, rest: string)
    requires 0 < i <= |v.kids|
    ensures var s := PrintFrom(v, i) + (Closing(v) + rest); s != [] && Closes(s[0])
  {
  }

  lemma {:induction false} ReadValue(p: Parser, v: Json, rest: string)
    requires Awaits(p) && Idle(p) && Value(v) && rest != [] && Closes(rest[0])
    ensures Reads(p, v, rest)
    decreases v, |v.kids| + 1
  {
    if v.kind == NUMBER {
      ReadNumber(p, v.text, rest);
      assert v == Leaf(NUMBER, v.text);
    } else if v.kind == OBJECT || v.kind == ARRAY {
      ReadKids(p.stack, p.lex, v, 0, rest);
      ReadContainer(p, v, rest);
    } else {
      ReadScalar(p, v, rest);
    }
  }

  /** The opening bracket. */
  lemma ReadOpening(p: Parser, v: Json, tail: string)
    requires Awaits(p) && p.lex.state == 0 && Container(v) && tail != []
    ensures Deep(p) && Deep(Inside(p.stack, p.lex, v, 0))
    ensures Steps(p, (if v.kind == OBJECT then "{" else "[") + tail) == Steps(Inside(p.stack, p.lex, v, 0), tail)
  {
    var c := if v.kind == OBJECT then '{' else '[';
    var q := p.(state := if v.kind == OBJECT then 1 else 7);
    TokenStep(p, c, Mark(c), q, tail);
    OpenedSteps(q, tail);
    assert (if v.kind == OBJECT then "{" else "[") == [c];
    assert v.(kids := v.kids[..0]) == Leaf(v.kind, "");
  }

  lemma ReadContainer(p: Parser, v: Json, rest: string)
    requires Awaits(p) && Idle(p) && Container(v) && Opens(p.stack)
    requires Deep(Inside(p.stack, p.lex, v, 0)) && Deep(Outside(p.stack, p.lex, v))
    requires Steps(Inside(p.stack, p.lex, v, 0),
        PrintFrom(v, 0) + (Closing(v) + rest)) == Steps(Outside(p.stack, p.lex, v), rest)
    ensures Reads(p, v, rest)
  {
    ReadOpening(p, v, PrintFrom(v, 0) + (Closing(v) + rest));
    PrintContainer(v, rest);
    OutsideAfter(p, v);
  }

  lemma PrintContainer(v: Json, rest: string)
    requires v.kind == OBJECT || v.kind == ARRAY
    ensures Print(v, false) + rest == (if v.kind == OBJECT then "{" else "[") + (PrintFrom(v, 0) + (Closing(v) + rest))
    ensures PrintFrom(v, 0) + (Closing(v) + rest) != []
  {
  }

  lemma OutsideAfter(p: Parser, v: Json)
    requires Awaits(p) && Opens(p.stack)
    ensures Outside(p.stack, p.lex, v) == AfterValue(p, v)
  {
    assert Parser(if Cursor(p.stack).kind == STRING then 6 else 8, p.lex, p.stack) == p;
  }

  lemma RootOpened(j: Json)
    requires Value(j) && j.kind == OBJECT
    ensures Opened(INIT.(state := 1)) == Inside([], START, j, 0)
  {
    assert j.(kids := j.kids[..0]) == Leaf(OBJECT, "");
    assert [] + [Leaf(OBJECT, "")] == [Leaf(OBJECT, "")];
  }

  /** Printing a document and reading it back gives the same document. */
  lemma RoundTrip(j: Json)
    requires Value(j) && j.kind == OBJECT
    ensures Feed(INIT, Print(j, false)) == Fed(Parser(99, START, [j]), WaitingForEof)
  {
    var tail := PrintFrom(j, 0) + (Closing(j) + "");
    var p := INIT.(state := 1);
    TokenStep(INIT, '{', BeginObject, p, tail);
    ReadKids([], START, j, 0, "");
    PrintContainer(j, "");
    OpenedSteps(p, tail);
    RootOpened(j);
    assert Print(j, false) == Print(j, false) + "" == ['{'] + tail;
    FeedIsSteps(INIT, Print(j, false));
  }

  /** Whatever was parsed, printing it and parsing that gives the same tree. */
  lemma PrintedParses(s: string)
    ensures var r := Feed(INIT, s);
      r.Fed? && r.code == WaitingForEof ==>
        |r.p.stack| == 1 && Feed(INIT, Print(r.p.stack[0], false)) == Fed(Parser(99, START, r.p.stack), WaitingForEof)
  {
    FeedIsSteps(INIT, s);
    Finished(s);
    var r := Feed(INIT, s);
    if r.Fed? && r.code == WaitingForEof {
      RoundTrip(r.p.stack[0]);
      assert [r.p.stack[0]] == r.p.stack;
    }
  }
}
