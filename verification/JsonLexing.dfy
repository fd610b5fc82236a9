/** The lexer as it runs: a loop over a buffer, with its state kept for the next fragment. */
module JsonLexing {
  import opened JsonLexer
  import opened JsonStrings

  class Lexer {
    var state: nat
    var text: RcString?
    var line: nat

    /** Inside a string or number, there is a text to collect it in. */
    predicate Collecting()
      reads this
    {
      1 <= state <= 6 || 17 <= state <= 24
    }

    /** What belongs to the lexer. */
    ghost function Repr(): set<object>
      reads this, text
    {
      if text == null then {this} else var t: RcString := text; {this, t, t.text}
    }

    ghost predicate Valid()
      reads this, Repr()
    {
      (text != null ==> text.Valid()) && (Collecting() ==> text != null)
    }

    /** The lexer's state as a value. */
    ghost function Now(): Lex
      requires Valid()
      reads this, Repr()
    {
      Lex(state, if text == null then "" else text.Contents(), line)
    }

    constructor ()
      ensures Valid() && Now() == START && fresh(Repr())
    {
      state, text, line := 0, null, 1;
    }

    /** The collected text passes to the caller. */
    method TakeText() returns (s: string)
      requires Valid() && text != null && state == 0
      modifies Repr()
      ensures Valid() && s == old(Now()).text && Now() == old(Now()).(text := "") && Repr() <= old(Repr())
    {
      s := text.Unwrap();
      text := null;
    }

    method StartText(first: string, next: nat)
      requires Valid() && next <= 24
      modifies Repr()
      ensures Valid() && Now() == old(Now()).(state := next, text := first) && fresh(Repr() - old(Repr()))
    {
      var t := new RcString(RSTRING_DEFAULT);
      t.CatCs(first);
      text, state := t, next;
    }

    method Put(c: char, next: nat)
      requires Valid() && text != null
      modifies Repr()
      ensures Valid() && Now() == old(Now()).(state := next, text := old(Now()).text + [c])
      ensures fresh(Repr() - old(Repr()))
    {
      text.CatC(c);
      state := next;
    }

    /** Outside any token. */
    method AtRoot(c: char) returns (tok: Token)
      requires Valid() && state == 0
      modifies Repr()
      ensures Valid() && fresh(Repr() - old(Repr()))
      ensures Root(old(Now()), c) == if tok == More then Eat(Now()) else Emit(tok, Now(), true)
    {
      tok := More;
      if c == ' ' || c == '\t' {
      } else if c == '\n' || c == '\r' {
        line := line + 1;
      } else if c == '{' {
        tok := BeginObject;
      } else if c == '}' {
        tok := EndObject;
      } else if c == '[' {
        tok := BeginArray;
      } else if c == ']' {
        tok := EndArray;
      } else if c == ':' {
        tok := NameSeparator;
      } else if c == ',' {
        tok := ValueSeparator;
      } else if c == '\"' {
        StartText("", 1);
      } else if c == 't' {
        state := 7;
      } else if c == 'f' {
        state := 10;
      } else if c == 'n' {
        state := 14;
      } else if c == '-' {
        StartText([c], 17);
      } else if c == '0' {
        StartText([c], 18);
      } else if '1' <= c <= '9' {
        StartText([c], 19);
      } else {
        tok := Invalid;
      }
    }

    /** Inside a string. */
    method AtString(c: char) returns (tok: Token, eaten: bool)
      requires Valid() && 1 <= state <= 6
      modifies Repr()
      ensures Valid() && fresh(Repr() - old(Repr()))
      ensures InString(old(Now()), c) == if tok == More then Eat(Now()) else Emit(tok, Now(), eaten)
      ensures (tok == More ==> eaten) && (tok == Text ==> text != null)
    {
      tok, eaten := More, true;
      if state == 1 {
        if c < ' ' {
          return Invalid, false;
        } else if c == '\"' {
          state := 0;
          return Text, true;
        } else {
          Put(c, if c == '\\' then 2 else 1);
        }
      } else if state == 2 {
        if Escapable(c) {
          Put(c, 1);
        } else if c == 'u' {
          Put(c, 3);
        } else {
          return Invalid, false;
        }
      } else if Hex(c) {
        Put(c, if state == 6 then 1 else state + 1);
      } else {
        return Invalid, false;
      }
    }

    /** Inside true, false or null. */
    method AtWord(c: char) returns (tok: Token)
      requires Valid() && 7 <= state <= 16
      modifies Repr()
      ensures Valid() && fresh(Repr() - old(Repr()))
      ensures InWord(old(Now()), c) == if tok == More then Eat(Now()) else Emit(tok, Now(), true)
    {
      var next: char;
      next, tok := WordNext(state).0, WordNext(state).1;
      if c != next {
        tok := Invalid;
      } else {
        state := if tok == More then state + 1 else 0;
      }
    }

    /** Inside a number. */
    method AtNumber(c: char) returns (tok: Token, eaten: bool)
      requires Valid() && 17 <= state <= 24
      modifies Repr()
      ensures Valid() && fresh(Repr() - old(Repr()))
      ensures InNumber(old(Now()), c) == if tok == More then Eat(Now()) else Emit(tok, Now(), eaten)
      ensures (tok == More ==> eaten) && (tok == Number ==> text != null)
    {
      tok, eaten := More, true;
      if Whole(state) && (Blank(c) || Closes(c)) {
        state := 0;
        return Number, Blank(c);
      }
      var next := 0;
      if state == 17 {
        next := if c == '0' then 18 else if Digit(c) then 19 else 0;
      } else if state == 18 {
        next := if c == '.' then 20 else if c == 'e' || c == 'E' then 22 else 0;
      } else if state == 19 {
        next := if Digit(c) then 19 else if c == '.' then 20 else if c == 'e' || c == 'E' then 22 else 0;
      } else if state == 20 {
        next := if Digit(c) then 21 else 0;
      } else if state == 21 {
        next := if Digit(c) then 21 else if c == 'e' || c == 'E' then 22 else 0;
      } else if state == 22 {
        next := if c == '-' || c == '+' then 23 else if Digit(c) then 24 else 0;
      } else if Digit(c) {
        next := 24;
      }
      if next == 0 { return Invalid, false; }
      Put(c, next);
    }

    method Step(c: char) returns (tok: Token, eaten: bool)
      requires Valid()
      modifies Repr()
      ensures Valid() && fresh(Repr() - old(Repr()))
      ensures LexChar(old(Now()), c) == if tok == More then Eat(Now()) else Emit(tok, Now(), eaten)
      ensures (tok == More ==> eaten) && (tok == Text || tok == Number ==> text != null)
    {
      eaten := true;
      if state == 0 {
        tok := AtRoot(c);
      } else if state <= 6 {
        tok, eaten := AtString(c);
      } else if state <= 16 {
        tok := AtWord(c);
      } else if state <= 24 {
        tok, eaten := AtNumber(c);
      } else {
        tok, eaten := Invalid, false;
      }
    }

    /** One character of a lexer run. */
    method StepAt(buffer: string, at: nat, ghost l0: Lex, ghost p: nat) returns (tok: Token, q: nat)
      requires Valid() && at < |buffer| && Running(l0, buffer, p, More, Now(), at)
      modifies Repr()
      ensures Valid() && fresh(Repr() - old(Repr())) && (tok == Text || tok == Number ==> text != null)
      ensures Running(l0, buffer, p, tok, Now(), q) && (tok == More ==> q > at) && q <= |buffer|
    {
      ghost var l := Now();
      var eaten;
      tok, eaten := Step(buffer[at]);
      q := if eaten then at + 1 else at;
      RunOn(l0, buffer, p, l, at, tok, Now(), q);
    }

    /** The next token from position `p` of the buffer on, or the end of the buffer. */
    method Next(buffer: string, p: nat) returns (tok: Token, q: nat)
      requires Valid() && p <= |buffer|
      modifies Repr()
      ensures Valid() && fresh(Repr() - old(Repr()))
      ensures tok == Text || tok == Number ==> text != null
      ensures p <= q <= |buffer| && Run(old(Now()), buffer[p..]) == LexRun(tok, Now(), q - p)
    {
      q, tok := p, More;
      ghost var l0 := Now();
      while q < |buffer| && tok == More
        invariant Valid() && fresh(Repr() - old(Repr())) && (tok == Text || tok == Number ==> text != null)
        invariant Running(l0, buffer, p, tok, Now(), q)
        decreases |buffer| - q, tok == More
      {
        tok, q := StepAt(buffer, q, l0, p);
      }
      if tok == More { RunEnd(l0, buffer, p, Now(), q); }
    }
  }

  lemma RunEnd(l0: Lex, buffer: string, p: nat, l: Lex, q: nat)
    requires q == |buffer| && Running(l0, buffer, p, More, l, q)
    ensures Run(l0, buffer[p..]) == LexRun(More, l, q - p)
  {
    assert buffer[q..] == [];
  }

  /** A lexer run that began at position `p` has got to position `q`, and has ended there unless `tok` is More. */
  ghost predicate Running(l0: Lex, buffer: string, p: nat, tok: Token, l: Lex, q: nat) {
    && p <= q <= |buffer|
    && Run(l0, buffer[p..]) == if tok == More then Later(Run(l, buffer[q..]), q - p) else LexRun(tok, l, q - p)
  }

  lemma RunOn(l0: Lex, buffer: string, p: nat, l: Lex, at: nat, tok: Token, m: Lex, q: nat)
    requires at < |buffer| && Running(l0, buffer, p, More, l, at) && (q == at + 1 || (q == at && tok != More))
    requires LexChar(l, buffer[at]) == if tok == More then Eat(m) else Emit(tok, m, q > at)
    ensures Running(l0, buffer, p, tok, m, q)
  {
    RunNext(l, buffer, at);
  }

  function Later(r: LexRun, n: nat): LexRun {
    r.(used := r.used + n)
  }

  lemma RunNext(l: Lex, buffer: string, q: nat)
    requires q < |buffer|
    ensures Run(l, buffer[q..]) ==
      match LexChar(l, buffer[q])
      case Eat(m) => Later(Run(m, buffer[q + 1..]), 1)
      case Emit(tok, m, eaten) => LexRun(tok, m, if eaten then 1 else 0)
  {
    assert buffer[q..][1..] == buffer[q + 1..];
  }
}
