/** The JSON parser as a function of what it is fed, and what its document tree looks like at every moment. */
module JsonParser {
  import opened JsonLexer

  datatype Kind = STRING | NUMBER | OBJECT | ARRAY | TRUE | FALSE | NULL

  /** A document node. The label of an object's member is a string node with the value as its only child. */
  datatype Json = Json(kind: Kind, text: string, kids: seq<Json>)

  datatype Code = Incomplete | WaitingForEof | Malformed | IllegalCharacter | BadTree | Unknown

  /** `stack` holds the nodes from the root to the cursor, each with the children it has so far. */
  datatype Parser = Parser(state: nat, lex: Lex, stack: seq<Json>)

  const INIT := Parser(0, START, [])

  datatype Result = Going(p: Parser) | Failed(code: Code)

  function Add(j: Json, kid: Json): Json {
    j.(kids := j.kids + [kid])
  }

  function Leaf(kind: Kind, text: string): Json {
    Json(kind, text, [])
  }

  function Cursor(stack: seq<Json>): Json
    requires stack != []
  {
    stack[|stack| - 1]
  }

  /** A new last child for the cursor. */
  function Insert(stack: seq<Json>, kid: Json): seq<Json>
    requires stack != []
  {
    stack[..|stack| - 1] + [Add(Cursor(stack), kid)]
  }

  /** The cursor moves to its parent. */
  function Up(stack: seq<Json>): seq<Json>
    requires |stack| >= 2
  {
    Insert(stack[..|stack| - 1], Cursor(stack))
  }

  /** States 1 and 7: the container is only opened when more text follows. */
  function Opened(p: Parser): Parser {
    if p.state == 1 then Parser(2, p.lex, p.stack + [Leaf(OBJECT, "")])
    else if p.state == 7 then Parser(8, p.lex, p.stack + [Leaf(ARRAY, "")])
    else p
  }

  predicate Pending(p: Parser) {
    p.state == 1 || p.state == 7
  }

  /** The end of an object or array. */
  function Leave(p: Parser): Result
    requires p.stack != []
  {
    if |p.stack| == 1 then Going(p.(state := 99)) else
      var s := Up(p.stack);
      match Cursor(s).kind
      case STRING =>
        if |s| == 1 then Failed(BadTree)
        else if Cursor(Up(s)).kind != OBJECT then Failed(BadTree)
        else Going(p.(state := 3, stack := Up(s)))
      case ARRAY => Going(p.(state := 9, stack := s))
      case _ => Failed(BadTree)
  }

  /** The node for a token that is a value by itself. */
  function Scalar(tok: Token, text: string): Json
    requires ScalarToken(tok)
  {
    match tok
    case Text => Leaf(STRING, text)
    case Number => Leaf(NUMBER, text)
    case True => Leaf(TRUE, "")
    case False => Leaf(FALSE, "")
    case _ => Leaf(NULL, "")
  }

  predicate ScalarToken(tok: Token) {
    tok == Text || tok == Number || tok == True || tok == False || tok == Null
  }

  /** The collected text, once in a node, is not the lexer's any more. */
  function TakenLex(l: Lex, tok: Token): Lex {
    if tok == Text || tok == Number then l.(text := "") else l
  }

  function Taken(p: Parser, tok: Token): Parser {
    p.(lex := TakenLex(p.lex, tok))
  }

  /** A label is a child of the object, and the cursor. */
  function Label(p: Parser): Result
    requires p.stack != []
  {
    Going(Taken(p, Text).(state := 5, stack := p.stack + [Leaf(STRING, p.lex.text)]))
  }

  /** A value for the label that is the cursor; then the cursor is the object again. */
  function LabelValue(p: Parser, tok: Token): Result
    requires |p.stack| >= 2 && ScalarToken(tok)
  {
    Going(Taken(p, tok).(state := 3, stack := Up(Insert(p.stack, Scalar(tok, p.lex.text)))))
  }

  function Item(p: Parser, tok: Token): Result
    requires p.stack != [] && ScalarToken(tok)
  {
    Going(Taken(p, tok).(state := 9, stack := Insert(p.stack, Scalar(tok, p.lex.text))))
  }

  /** How many nodes there are at least from the root to the cursor. */
  predicate Deep(p: Parser) {
    (2 <= p.state && p.state != 7 ==> |p.stack| >= 1) && (p.state == 5 || p.state == 6 ==> |p.stack| >= 2)
  }

  /** What the parser does with a token. */
  function Deliver(p: Parser, tok: Token): Result
    requires Deep(p)
  {
    if p.state == 0 then
      if tok == BeginObject then Going(p.(state := 1)) else Failed(Malformed)
    else if p.state == 2 then
      if tok == Text then Label(p)
      else if tok == EndObject then Leave(p)
      else Failed(Malformed)
    else if p.state == 3 then
      if tok == ValueSeparator then Going(p.(state := 4))
      else if tok == EndObject then Leave(p)
      else Failed(Malformed)
    else if p.state == 4 then
      if tok == Text then Label(p)
      else Failed(if tok == Invalid then IllegalCharacter else Malformed)
    else if p.state == 5 then
      if tok == NameSeparator then Going(p.(state := 6)) else Failed(Malformed)
    else if p.state == 6 then
      if ScalarToken(tok) then LabelValue(p, tok)
      else if tok == BeginObject then Going(p.(state := 1))
      else if tok == BeginArray then Going(p.(state := 7))
      else Failed(if tok == Invalid then IllegalCharacter else Malformed)
    else if p.state == 8 then
      if ScalarToken(tok) then Item(p, tok)
      else if tok == BeginArray then Going(p.(state := 7))
      else if tok == EndArray then Leave(p)
      else if tok == BeginObject then Going(p.(state := 1))
      else Failed(if tok == Invalid then IllegalCharacter else Malformed)
    else if p.state == 9 then
      if tok == ValueSeparator then Going(p.(state := 8))
      else if tok == EndArray then Leave(p)
      else Failed(Malformed)
    else if p.state == 99 then Failed(Malformed)
    else Failed(Unknown)
  }

  lemma DeliverDeep(p: Parser, tok: Token)
    requires Deep(p)
    ensures var r := Deliver(p, tok);
      && (tok == Invalid ==> r.Failed?)
      && (r.Going? ==> Deep(r.p) && r.p.lex.state == p.lex.state)
  {
  }

  // Fragments

  /** The outcome of a fragment. */
  datatype Fed = Fed(p: Parser, code: Code) | Rejected(code: Code)

  function EndCode(state: nat): Code {
    if state == 99 then WaitingForEof else Incomplete
  }

  function Rank(p: Parser): nat {
    (if p.lex.state == 0 then 0 else 2) + (if Pending(p) then 1 else 0)
  }

  /** Feeding a fragment, token by token. */
  function Feed(p: Parser, s: string): Fed
    requires Deep(p)
    decreases |s|, Rank(p)
  {
    if s == [] then Fed(p, EndCode(p.state))
    else if Pending(p) then Feed(Opened(p), s)
    else
      var r := Run(p.lex, s);
      if r.tok == More then
        if p.state == 0 then Rejected(Malformed) else Fed(p.(lex := r.l), EndCode(p.state))
      else
        RunRank(p.lex, s);
        DeliverDeep(p.(lex := r.l), r.tok);
        DeliverRank(p.(lex := r.l), r.tok);
        match Deliver(p.(lex := r.l), r.tok)
        case Failed(code) => Rejected(code)
        case Going(q) => Feed(q, s[r.used..])
  }

  /** A token that uses nothing is the end of a number, or an error. */
  lemma RunRank(l: Lex, s: string)
    requires s != []
    ensures var r := Run(l, s);
        r.tok != More && r.used == 0 ==> r.tok == Invalid || (r.tok == Number && l.state != 0 && r.l.state == 0)
  {
  }

  lemma DeliverRank(p: Parser, tok: Token)
    requires Deep(p)
    ensures var r := Deliver(p, tok); r.Going? && tok == Number ==> !Pending(r.p)
  {
  }

  /** One character. */
  function StepChar(p: Parser, c: char): (r: Result)
    requires Deep(p)
    ensures r.Going? ==> Deep(r.p)
    decreases if p.lex.state == 0 then 0 else 1
  {
    var o := Opened(p);
    match LexChar(o.lex, c)
    case Eat(l) => Going(o.(lex := l))
    case Emit(tok, l, eaten) =>
      DeliverDeep(o.(lex := l), tok);
      CharRank(o.lex, c);
      match Deliver(o.(lex := l), tok)
      case Failed(code) => Failed(code)
      case Going(q) => if eaten then Going(q) else StepChar(q, c)
  }

  lemma CharRank(l: Lex, c: char)
    ensures var r := LexChar(l, c);
        r.Emit? && !r.eaten ==> r.tok == Invalid || (r.tok == Number && l.state != 0 && r.l.state == 0)
  {
  }

  /** One character after another. */
  function Steps(p: Parser, s: string): (r: Result)
    requires Deep(p)
    ensures r.Going? ==> Deep(r.p)
    decreases |s|
  {
    if s == [] then Going(p) else
      match StepChar(p, s[0])
      case Failed(code) => Failed(code)
      case Going(q) => Steps(q, s[1..])
  }
}
