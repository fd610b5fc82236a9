/** Feeding a document in fragments: the token machine is a character machine, so cuts do not matter. */
module JsonFragments {
  import opened JsonLexer
  import opened JsonParser

  /** What follows a token, character by character. */
  function AfterToken(p: Parser, tok: Token, rest: string): Result
    requires Deep(p)
  {
    DeliverDeep(p, tok);
    match Deliver(p, tok)
    case Failed(code) => Failed(code)
    case Going(q) => Steps(q, rest)
  }

  /** A lexer run is a number of character steps. */
  lemma {:induction false} RunSteps(p: Parser, s: string)
    requires Deep(p) && !Pending(p)
    ensures var r := Run(p.lex, s);
      Steps(p, s) == if r.tok == More then Going(p.(lex := r.l)) else AfterToken(p.(lex := r.l), r.tok, s[r.used..])
    decreases |s|
  {
    if s != [] {
      var c := LexChar(p.lex, s[0]);
      if c.Eat? {
        RunSteps(p.(lex := c.l), s[1..]);
        var r := Run(c.l, s[1..]);
        assert s[1..][r.used..] == s[r.used + 1..];
      } else {
        EmitSteps(p, s);
      }
    }
  }

  lemma {:induction false} EmitSteps(p: Parser, s: string)
    requires Deep(p) && !Pending(p) && s != [] && LexChar(p.lex, s[0]).Emit?
    ensures var c := LexChar(p.lex, s[0]);
      Steps(p, s) == AfterToken(p.(lex := c.l), c.tok, s[if c.eaten then 1 else 0..])
  {
    var c := LexChar(p.lex, s[0]);
    CharRank(p.lex, s[0]);
    DeliverDeep(p.(lex := c.l), c.tok);
    var d := Deliver(p.(lex := c.l), c.tok);
    if d.Going? && !c.eaten {
      assert s[0..] == s;
      assert StepChar(p, s[0]) == StepChar(d.p, s[0]);
    }
  }

  /** What a fragment leads to, said by characters. */
  function Settle(p: Parser, s: string): Fed
    requires Deep(p)
  {
    match Steps(p, s)
    case Failed(code) => Rejected(code)
    case Going(q) => if s != [] && q.state == 0 then Rejected(Malformed) else Fed(q, EndCode(q.state))
  }

  /** The token loop does what the character steps do. */
  lemma {:induction false} FeedIsSteps(p: Parser, s: string)
    requires Deep(p)
    ensures Feed(p, s) == Settle(p, s)
    decreases |s|, Rank(p)
  {
    if s != [] {
      if Pending(p) {
        FeedIsSteps(Opened(p), s);
        OpenedSteps(p, s);
      } else {
        RunSteps(p, s);
        var r := Run(p.lex, s);
        if r.tok != More { FeedToken(p, s); }
      }
    }
  }

  lemma OpenedSteps(p: Parser, s: string)
    requires Deep(p) && s != []
    ensures Deep(Opened(p)) && Steps(p, s) == Steps(Opened(p), s)
  {
    assert StepChar(p, s[0]) == StepChar(Opened(p), s[0]);
  }

  lemma {:induction false} FeedToken(p: Parser, s: string)
    requires Deep(p) && !Pending(p) && s != [] && Run(p.lex, s).tok != More
    ensures Feed(p, s) == Settle(p, s)
    decreases |s|, Rank(p), 0
  {
    var r := Run(p.lex, s);
    RunSteps(p, s);
    RunRank(p.lex, s);
    DeliverDeep(p.(lex := r.l), r.tok);
    DeliverRank(p.(lex := r.l), r.tok);
    var d := Deliver(p.(lex := r.l), r.tok);
    if d.Going? {
      FeedIsSteps(d.p, s[r.used..]);
      if s[r.used..] == [] { DeliverState(p.(lex := r.l), r.tok); }
    }
  }

  /** Only the opening brace leaves the starting state, and no token returns there. */
  lemma DeliverState(p: Parser, tok: Token)
    requires Deep(p)
    ensures var r := Deliver(p, tok); r.Going? ==> r.p.state != 0
  {
  }

  lemma {:induction false} StepsAppend(p: Parser, s: string, t: string)
    requires Deep(p)
    ensures Steps(p, s + t) ==
      var r := Steps(p, s);
      if r.Failed? then r else Steps(r.p, t)
    decreases |s|
  {
    if s == [] {
      assert s + t == t;
    } else {
      assert (s + t)[0] == s[0] && (s + t)[1..] == s[1..] + t;
      var r := StepChar(p, s[0]);
      if r.Going? { StepsAppend(r.p, s[1..], t); }
    }
  }

  // Whole documents

  function Concat(frags: seq<string>): string {
    if frags == [] then [] else frags[0] + Concat(frags[1..])
  }

  /** Feeding one fragment after another, up to the first error. */
  function FeedAll(p: Parser, frags: seq<string>): Fed
    requires Deep(p)
    decreases |frags|
  {
    if frags == [] then Fed(p, EndCode(p.state)) else
      FeedDeep(p, frags[0]);
      match Feed(p, frags[0])
      case Rejected(code) => Rejected(code)
      case Fed(q, _) => FeedAll(q, frags[1..])
  }

  lemma FeedDeep(p: Parser, s: string)
    requires Deep(p)
    ensures var r := Feed(p, s); r.Fed? ==> Deep(r.p) && (s != [] ==> r.p.state != 0) && r.code == EndCode(r.p.state)
  {
    FeedIsSteps(p, s);
  }

  lemma {:induction false} StepsState(p: Parser, s: string)
    requires Deep(p) && p.state != 0
    ensures var r := Steps(p, s); r.Going? ==> r.p.state != 0
    decreases |s|
  {
    if s != [] {
      StepState(p, s[0]);
      var r := StepChar(p, s[0]);
      if r.Going? { StepsState(r.p, s[1..]); }
    }
  }

  lemma {:induction false} StepState(p: Parser, c: char)
    requires Deep(p) && p.state != 0
    ensures var r := StepChar(p, c); r.Going? ==> r.p.state != 0
    decreases if p.lex.state == 0 then 0 else 1
  {
    var o := Opened(p);
    var r := LexChar(o.lex, c);
    if r.Emit? {
      DeliverDeep(o.(lex := r.l), r.tok);
      DeliverState(o.(lex := r.l), r.tok);
      CharRank(o.lex, c);
      var d := Deliver(o.(lex := r.l), r.tok);
      if d.Going? && !r.eaten { StepState(d.p, c); }
    }
  }

  /** Once the document has begun, cuts do not matter: not to the state, the tree, the line count or the first error. */
  lemma {:induction false} CutsDoNotMatter(p: Parser, frags: seq<string>)
    requires Deep(p) && p.state != 0
    ensures FeedAll(p, frags) == Feed(p, Concat(frags))
    decreases |frags|
  {
    if frags != [] {
      var f, rest := frags[0], Concat(frags[1..]);
      FeedIsSteps(p, f);
      FeedIsSteps(p, f + rest);
      StepsAppend(p, f, rest);
      StepsState(p, f);
      StepsState(p, f + rest);
      var r := Steps(p, f);
      if r.Going? {
        CutsDoNotMatter(r.p, frags[1..]);
        FeedIsSteps(r.p, rest);
      }
    }
  }

  predicate AllBlank(s: string) {
    forall c <- s :: Blank(c)
  }

  /** The first fragment that is not empty consists of blanks only. */
  predicate BlankStart(frags: seq<string>) {
    frags != [] && if frags[0] == [] then BlankStart(frags[1..]) else AllBlank(frags[0])
  }

  /** Outside a token, and before the document has begun. */
  predicate Fresh(p: Parser) {
    p.state == 0 && p.lex.state == 0
  }

  lemma {:induction false} BlankSteps(p: Parser, s: string)
    requires Fresh(p) && AllBlank(s)
    ensures var r := Steps(p, s); r.Going? && Fresh(r.p)
    decreases |s|
  {
    if s != [] {
      assert Blank(s[0]);
      var r := StepChar(p, s[0]);
      BlankSteps(r.p, s[1..]);
    }
  }

  /** A fragment of blanks before the document is refused, whatever follows. */
  lemma {:induction false} BlankStartRefused(p: Parser, frags: seq<string>)
    requires Fresh(p) && BlankStart(frags)
    ensures FeedAll(p, frags) == Rejected(Malformed)
    decreases |frags|
  {
    if frags[0] == [] {
      BlankStartRefused(p, frags[1..]);
    } else {
      BlankSteps(p, frags[0]);
      FeedIsSteps(p, frags[0]);
    }
  }

  /** In the middle of a token before the document, there is no way but to fail. */
  lemma {:induction false} MidToken(p: Parser, s: string)
    requires p.state == 0 && p.lex.state != 0
    ensures var r := Steps(p, s); if r.Failed? then r.code == Malformed else r.p.state == 0 && r.p.lex.state != 0
    decreases |s|
  {
    if s != [] {
      MidChar(p, s[0]);
      var r := StepChar(p, s[0]);
      if r.Going? { MidToken(r.p, s[1..]); }
    }
  }

  lemma MidChar(p: Parser, c: char)
    requires p.state == 0 && p.lex.state != 0
    ensures var r := StepChar(p, c); if r.Failed? then r.code == Malformed else r.p.state == 0 && r.p.lex.state != 0
  {
  }

  /** After something else than blanks, the document has begun, or a token that cannot begin it. */
  lemma {:induction false} Begun(p: Parser, s: string)
    requires Fresh(p) && !AllBlank(s)
    ensures var r := Steps(p, s); r.Going? && r.p.state == 0 ==> r.p.lex.state != 0
    decreases |s|
  {
    var r := StepChar(p, s[0]);
    if r.Going? {
      if Blank(s[0]) {
        assert !AllBlank(s[1..]);
        Begun(r.p, s[1..]);
      } else if r.p.state != 0 {
        StepsState(r.p, s[1..]);
      } else {
        MidToken(r.p, s[1..]);
      }
    }
  }

  lemma {:induction false} CutsAtStart(p: Parser, frags: seq<string>)
    requires Fresh(p) && !BlankStart(frags)
    ensures FeedAll(p, frags) == Feed(p, Concat(frags))
    decreases |frags|
  {
    if frags != [] {
      var f, rest := frags[0], Concat(frags[1..]);
      if f == [] {
        assert f + rest == rest;
        CutsAtStart(p, frags[1..]);
      } else {
        FeedIsSteps(p, f);
        FeedIsSteps(p, f + rest);
        StepsAppend(p, f, rest);
        Begun(p, f);
        CutAfterFirst(p, frags);
      }
    }
  }

  lemma {:induction false} CutAfterFirst(p: Parser, frags: seq<string>)
    requires frags != [] && frags[0] != [] && Deep(p)
    requires Feed(p, frags[0]) == Settle(p, frags[0]) && Feed(p, Concat(frags)) == Settle(p, Concat(frags))
    requires var r := Steps(p, frags[0]);
        Steps(p, Concat(frags)) == if r.Failed? then r else Steps(r.p, Concat(frags[1..]))
    requires var r := Steps(p, frags[0]); r.Going? && r.p.state == 0 ==> r.p.lex.state != 0
    ensures FeedAll(p, frags) == Feed(p, Concat(frags))
  {
    var r, rest := Steps(p, frags[0]), Concat(frags[1..]);
    if r.Going? {
      if r.p.state == 0 {
        MidToken(r.p, rest);
      } else {
        CutsDoNotMatter(r.p, frags[1..]);
        FeedIsSteps(r.p, rest);
        StepsState(r.p, rest);
      }
    }
  }

  /** Cutting a document into fragments does not change the outcome, unless the first fragment that is not empty
      is of blanks only; then it is refused, whatever follows. */
  lemma Fragmentation(frags: seq<string>)
    ensures !BlankStart(frags) ==> FeedAll(INIT, frags) == Feed(INIT, Concat(frags))
    ensures BlankStart(frags) ==> FeedAll(INIT, frags) == Rejected(Malformed)
  {
    if BlankStart(frags) {
      BlankStartRefused(INIT, frags);
    } else {
      CutsAtStart(INIT, frags);
    }
  }

  /** For a document that is not malformed as a whole, that is the exact condition. */
  lemma FragmentationExact(frags: seq<string>)
    requires Feed(INIT, Concat(frags)) != Rejected(Malformed)
    ensures FeedAll(INIT, frags) == Feed(INIT, Concat(frags)) <==> !BlankStart(frags)
  {
    Fragmentation(frags);
  }

  predicate BlankFirst(s: string) {
    s != [] && Blank(s[0])
  }

  lemma {:induction false} StartOfConcat(frags: seq<string>)
    requires BlankStart(frags)
    ensures BlankFirst(Concat(frags))
    decreases |frags|
  {
    if frags[0] == [] {
      StartOfConcat(frags[1..]);
    } else {
      assert Concat(frags)[0] == frags[0][0] && frags[0][0] in frags[0];
    }
  }

  /** All cuttings of a document that is not malformed have the outcome of the whole, exactly if it does not
      begin with a blank. */
  lemma EveryCut(s: string)
    requires Feed(INIT, s) != Rejected(Malformed)
    ensures !BlankFirst(s) <==>
      forall frags {:trigger FeedAll(INIT, frags)} | Concat(frags) == s :: FeedAll(INIT, frags) == Feed(INIT, s)
  {
    if BlankFirst(s) {
      var frags := [s[..1], s[1..]];
      assert frags[1..] == [s[1..]] && frags[1..][1..] == [];
      assert Concat(frags[1..]) == s[1..] + Concat([]) == s[1..];
      assert Concat(frags) == s;
      assert AllBlank(frags[0]);
      FragmentationExact(frags);
    } else {
      forall frags | Concat(frags) == s ensures FeedAll(INIT, frags) == Feed(INIT, s) {
        if BlankStart(frags) { StartOfConcat(frags); }
        Fragmentation(frags);
      }
    }
  }

  /** A blank line before the document is enough. */
  lemma BlankLineFirst()
    ensures FeedAll(INIT, ["\n", "{"]) == Rejected(Malformed)
    ensures Feed(INIT, Concat(["\n", "{"])) == Fed(INIT.(state := 1, lex := START.(line := 2)), Incomplete)
  {
    assert BlankStart(["\n", "{"]);
    BlankStartRefused(INIT, ["\n", "{"]);
    assert ["\n", "{"][1..] == ["{"] && ["{"][1..] == [];
    assert Concat(["{"]) == "{" && Concat(["\n", "{"]) == "\n{";
    assert "\n{"[1..] == "{";
    var p := INIT.(lex := START.(line := 2));
    assert StepChar(INIT, '\n') == Going(p);
    assert StepChar(p, '{') == Going(p.(state := 1));
    assert Steps(p, "{") == Steps(p.(state := 1), []);
    assert Steps(INIT, "\n{") == Steps(p, "{");
    FeedIsSteps(INIT, "\n{");
  }
}
