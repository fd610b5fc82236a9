/** The JSON lexer, one character at a time. */
module JsonLexer {

  datatype Token =
    | More | Invalid | True | False | Null
    | BeginObject | EndObject | BeginArray | EndArray | NameSeparator | ValueSeparator
    | Text | Number

  /** Where the lexer is inside a token, what it has collected of it, and the line it is on. */
  datatype Lex = Lex(state: nat, text: string, line: nat)

  const START := Lex(0, "", 1)

  /** A character is taken in, or completes a token. A number ends at a character that may be left over. */
  datatype LexStep = Eat(l: Lex) | Emit(tok: Token, l: Lex, eaten: bool)

  predicate Blank(c: char) {
    c == ' ' || c == '\t' || c == '\n' || c == '\r'
  }

  predicate Digit(c: char) {
    '0' <= c <= '9'
  }

  predicate Hex(c: char) {
    Digit(c) || 'a' <= c <= 'f' || 'A' <= c <= 'F'
  }

  /** The characters that end a number and are left over. */
  predicate Closes(c: char) {
    c == ']' || c == '}' || c == ','
  }

  function Mark(c: char): Token {
    if c == '{' then BeginObject else if c == '}' then EndObject
    else if c == '[' then BeginArray else if c == ']' then EndArray
    else if c == ':' then NameSeparator else if c == ',' then ValueSeparator
    else Invalid
  }

  /** Outside any token. */
  function Root(l: Lex, c: char): LexStep {
    if c == ' ' || c == '\t' then Eat(l)
    else if c == '\n' || c == '\r' then Eat(l.(line := l.line + 1))
    else if c == '\"' then Eat(l.(state := 1, text := ""))
    else if c == 't' then Eat(l.(state := 7))
    else if c == 'f' then Eat(l.(state := 10))
    else if c == 'n' then Eat(l.(state := 14))
    else if c == '-' then Eat(l.(state := 17, text := [c]))
    else if c == '0' then Eat(l.(state := 18, text := [c]))
    else if Digit(c) then Eat(l.(state := 19, text := [c]))
    else Emit(Mark(c), l, true)
  }

  predicate Escapable(c: char) {
    c == '\\' || c == '\"' || c == '/' || c == 'b' || c == 'f' || c == 'n' || c == 'r' || c == 't'
  }

  /** The state after another character of a string, if it may stand there. */
  function StringNext(state: nat, c: char): nat {
    if state == 1 then (if c < ' ' || c == '\"' then 0 else if c == '\\' then 2 else 1)
    else if state == 2 then (if Escapable(c) then 1 else if c == 'u' then 3 else 0)
    else if Hex(c) then (if state == 6 then 1 else state + 1)
    else 0
  }

  /** Inside a string. */
  function InString(l: Lex, c: char): LexStep {
    if l.state == 1 && c == '\"' then Emit(Text, l.(state := 0), true)
    else if StringNext(l.state, c) == 0 then Emit(Invalid, l, false)
    else Eat(l.(state := StringNext(l.state, c), text := l.text + [c]))
  }

  /** The character that continues a word, and the token the word completes. */
  function WordNext(state: nat): (char, Token)
    requires 7 <= state <= 16
  {
    if state == 7 then ('r', More) else if state == 8 then ('u', More) else if state == 9 then ('e', True)
    else if state == 10 then ('a', More) else if state == 11 then ('l', More)
    else if state == 12 then ('s', More) else if state == 13 then ('e', False)
    else if state == 14 then ('u', More) else if state == 15 then ('l', More) else ('l', Null)
  }

  /** Inside true, false or null. */
  function InWord(l: Lex, c: char): LexStep
    requires 7 <= l.state <= 16
  {
    var (next, tok) := WordNext(l.state);
    if c != next then Emit(Invalid, l, true)
    else if tok == More then Eat(l.(state := l.state + 1))
    else Emit(tok, l.(state := 0), true)
  }

  /** The state after another character of a number, if it may stand there. */
  function NumberNext(state: nat, c: char): nat {
    if state == 17 then (if c == '0' then 18 else if Digit(c) then 19 else 0)
    else if state == 18 then (if c == '.' then 20 else if c == 'e' || c == 'E' then 22 else 0)
    else if state == 19 then (if Digit(c) then 19 else if c == '.' then 20 else if c == 'e' || c == 'E' then 22 else 0)
    else if state == 20 then (if Digit(c) then 21 else 0)
    else if state == 21 then (if Digit(c) then 21 else if c == 'e' || c == 'E' then 22 else 0)
    else if state == 22 then (if c == '-' || c == '+' then 23 else if Digit(c) then 24 else 0)
    else if Digit(c) then 24
    else 0
  }

  /** A number may end here. */
  predicate Whole(state: nat) {
    state == 18 || state == 19 || state == 21 || state == 24
  }

  /** Inside a number. */
  function InNumber(l: Lex, c: char): LexStep {
    if Whole(l.state) && (Blank(c) || Closes(c)) then Emit(Number, l.(state := 0), Blank(c))
    else if NumberNext(l.state, c) == 0 then Emit(Invalid, l, false)
    else Eat(l.(state := NumberNext(l.state, c), text := l.text + [c]))
  }

  function LexChar(l: Lex, c: char): LexStep {
    if l.state == 0 then Root(l, c)
    else if l.state <= 6 then InString(l, c)
    else if l.state <= 16 then InWord(l, c)
    else if l.state <= 24 then InNumber(l, c)
    else Emit(Invalid, l, false)
  }

  /** A lexer run: the token it ends with, the state it leaves, and how much of the input it used. */
  datatype LexRun = LexRun(tok: Token, l: Lex, used: nat)

  function Run(l: Lex, s: string): (r: LexRun)
    ensures r.used <= |s|
    ensures r.tok == More ==> r.used == |s|
    decreases |s|
  {
    if s == [] then LexRun(More, l, 0)
    else
      match LexChar(l, s[0])
      case Eat(m) => var r := Run(m, s[1..]); LexRun(r.tok, r.l, r.used + 1)
      case Emit(tok, m, eaten) => LexRun(tok, m, if eaten then 1 else 0)
  }

  // What the lexer accepts as the text of strings and of numbers

  function StringState(t: string): nat {
    if t == [] then 1 else
      var s := StringState(t[..|t| - 1]);
      if s == 0 then 0 else StringNext(s, t[|t| - 1])
  }

  /** `t` may stand between quotes. */
  predicate StringText(t: string) {
    StringState(t) == 1
  }

  function NumberState(t: string): nat {
    if t == [] then 0
    else if |t| == 1 then (if t[0] == '-' then 17 else if t[0] == '0' then 18 else if Digit(t[0]) then 19 else 0)
    else
      var s := NumberState(t[..|t| - 1]);
      if s == 0 then 0 else NumberNext(s, t[|t| - 1])
  }

  /** `t` is a number. */
  predicate NumberText(t: string) {
    Whole(NumberState(t))
  }

  /** What has been collected is the beginning of a token, and the state says how far it goes. */
  predicate Collected(l: Lex) {
    && (1 <= l.state <= 6 ==> StringState(l.text) == l.state)
    && (17 <= l.state ==> NumberState(l.text) == l.state)
    && l.state <= 24
  }

  lemma StringStates(t: string)
    ensures StringState(t) <= 6
  {
  }

  lemma NumberStates(t: string)
    ensures NumberState(t) == 0 || 17 <= NumberState(t) <= 24
  {
  }

  /** Every character keeps that; a completed string or number has an accepted text. */
  lemma CollectedKept(l: Lex, c: char)
    requires Collected(l)
    ensures var r := LexChar(l, c);
      && Collected(r.l)
      && (r.Emit? && r.tok == Text ==> StringText(r.l.text) && r.l.state == 0)
      && (r.Emit? && r.tok == Number ==> NumberText(r.l.text) && r.l.state == 0)
  {
    assert (l.text + [c])[..|l.text|] == l.text;
    if l.state == 0 {
      RootCollected(l, c);
    } else {
      StringStates(l.text + [c]);
      NumberStates(l.text + [c]);
    }
  }

  lemma RootCollected(l: Lex, c: char)
    requires l.state == 0
    ensures Collected(Root(l, c).l)
    ensures Root(l, c).Emit? ==> Root(l, c).tok != Text && Root(l, c).tok != Number
  {
  }
}
