/** What is printed: the tokens of the tree, with nothing between them. */
module JsonShortest {
  import opened JsonLexer
  import opened JsonParser
  import opened JsonTrees
  import opened JsonPrint
  import opened JsonTokens
  import opened JsonLanguage

  /** The tokens one right behind the other. */
  function Flat(ts: seq<Lexeme>): string {
    if ts == [] then "" else Flat(ts[..|ts| - 1]) + Spelling(ts[|ts| - 1])
  }

  lemma FlatMore(ts: seq<Lexeme>, x: Lexeme)
    ensures Flat(ts + [x]) == Flat(ts) + Spelling(x)
  {
    assert (ts + [x])[..|ts|] == ts;
  }

  lemma {:induction false} FlatSum(a: seq<Lexeme>, b: seq<Lexeme>)
    ensures Flat(a + b) == Flat(a) + Flat(b)
    decreases |b|
  {
    if b == [] {
      assert a + b == a;
    } else {
      var n := |b| - 1;
      FlatSum(a, b[..n]);
      assert a + b == (a + b[..n]) + [b[n]];
      FlatMore(a + b[..n], b[n]);
      Assoc(Flat(a), Flat(b[..n]), Spelling(b[n]));
    }
  }

  lemma FlatOne(x: Lexeme)
    ensures Flat([x]) == Spelling(x)
  {
    FlatMore([], x);
    assert [] + [x] == [x];
  }

  lemma FlatComma(b: bool)
    ensures Flat(Comma(b)) == if b then "," else ""
  {
    if b { FlatOne(Sign(ValueSeparator)); }
  }

  /** The tokens of the first `n` children, and the text of the others. */
  lemma {:induction false} ListedPrinted(j: Json, n: nat)
    requires Container(j) || Member(j)
    requires n <= |j.kids|
    ensures Flat(Listed(j, n)) + PrintFrom(j, n) == PrintFrom(j, 0)
    decreases j, n, 0
  {
    if n > 0 {
      var kid := j.kids[n - 1];
      ListedPrinted(j, n - 1);
      KidIs(j, n - 1);
      TokensPrinted(kid, j.kind == OBJECT);
      ListedMore(j, n - 1);
      PrintFromMore(j, n - 1);
      hide *;
      FlatComma(n > 1);
      FlatSum(Listed(j, n - 1) + Comma(n > 1), Tokens(kid));
      FlatSum(Listed(j, n - 1), Comma(n > 1));
      Regroup(Flat(Listed(j, n - 1)), if n > 1 then "," else "", Print(kid, j.kind == OBJECT), PrintFrom(j, n));
    }
  }

  lemma KidIs(j: Json, i: nat)
    requires (Container(j) || Member(j)) && i < |j.kids|
    ensures if j.kind == OBJECT then Member(j.kids[i]) else Value(j.kids[i])
  {
  }

  lemma PrintFromMore(j: Json, i: nat)
    requires i < |j.kids|
    ensures PrintFrom(j, i) == (if i > 0 then "," else "") + Print(j.kids[i], j.kind == OBJECT) + PrintFrom(j, i + 1)
  {
  }

  lemma Regroup(a: string, b: string, c: string, d: string)
    ensures a + b + c + d == a + (b + c + d)
  {
  }

  /** A value, or a label with its value, is printed as its tokens. */
  lemma {:induction false} TokensPrinted(j: Json, tag: bool)
    requires if tag then Member(j) else Value(j)
    ensures Flat(Tokens(j)) == Print(j, tag)
    decreases j, |j.kids| + 1, 1
  {
    if j.kind == OBJECT || j.kind == ARRAY {
      ListedPrinted(j, |j.kids|);
      ContainerPrinted(j, tag);
    } else if tag {
      ListedPrinted(j, 1);
      MemberPrinted(j);
    } else {
      ScalarPrinted(j);
    }
  }

  lemma PrintParts(j: Json, tag: bool)
    ensures PrintFrom(j, |j.kids|) == ""
    ensures j.kind == OBJECT ==> Print(j, tag) == "{" + PrintFrom(j, 0) + "}"
    ensures j.kind == ARRAY ==> Print(j, tag) == "[" + PrintFrom(j, 0) + "]"
    ensures j.kind == STRING ==> Print(j, true) == "\"" + j.text + "\"" + ":" + PrintFrom(j, 0)
  {
  }

  lemma TokenParts(j: Json)
    ensures j.kind == OBJECT ==> Tokens(j) == [Sign(BeginObject)] + Listed(j, |j.kids|) + [Sign(EndObject)]
    ensures j.kind == ARRAY ==> Tokens(j) == [Sign(BeginArray)] + Listed(j, |j.kids|) + [Sign(EndArray)]
  {
    hide Listed;
  }

  lemma SpellingParts(t: string)
    ensures Spelling(Sign(BeginObject)) == "{" && Spelling(Sign(EndObject)) == "}"
    ensures Spelling(Sign(BeginArray)) == "[" && Spelling(Sign(EndArray)) == "]"
    ensures Spelling(Lexeme(Text, t)) == "\"" + t + "\"" && Spelling(Sign(NameSeparator)) == ":"
  {
  }

  lemma FlatAround(open: Lexeme, kids: seq<Lexeme>, close: Lexeme)
    ensures Flat([open] + kids + [close]) == Spelling(open) + Flat(kids) + Spelling(close)
  {
    hide *;
    FlatSum([open] + kids, [close]);
    FlatSum([open], kids);
    FlatOne(open);
    FlatOne(close);
  }

  lemma ContainerPrinted(j: Json, tag: bool)
    requires j.kind == OBJECT || j.kind == ARRAY
    requires Flat(Listed(j, |j.kids|)) + PrintFrom(j, |j.kids|) == PrintFrom(j, 0)
    ensures Flat(Tokens(j)) == Print(j, tag)
  {
    hide *;
    PrintParts(j, tag);
    TokenParts(j);
    SpellingParts("");
    assert Flat(Listed(j, |j.kids|)) + "" == Flat(Listed(j, |j.kids|));
    if j.kind == OBJECT {
      FlatAround(Sign(BeginObject), Listed(j, |j.kids|), Sign(EndObject));
    } else {
      FlatAround(Sign(BeginArray), Listed(j, |j.kids|), Sign(EndArray));
    }
  }

  lemma MemberPrinted(j: Json)
    requires j.kind == STRING && |j.kids| == 1 && Flat(Listed(j, 1)) + PrintFrom(j, 1) == PrintFrom(j, 0)
    ensures Flat(Tokens(j)) == Print(j, true)
  {
    hide *;
    var name, colon := Lexeme(Text, j.text), Sign(NameSeparator);
    LabelTokens(j);
    PrintParts(j, true);
    SpellingParts(j.text);
    assert Flat(Listed(j, 1)) + "" == Flat(Listed(j, 1));
    FlatSum([name, colon], Listed(j, 1));
    FlatPair(name, colon);
  }

  lemma FlatPair(x: Lexeme, y: Lexeme)
    ensures Flat([x, y]) == Spelling(x) + Spelling(y)
  {
    hide *;
    assert [x, y] == [x] + [y];
    FlatMore([x], y);
    FlatOne(x);
  }

  lemma ScalarPrinted(j: Json)
    requires Value(j) && j.kind != OBJECT && j.kind != ARRAY
    ensures Flat(Tokens(j)) == Print(j, false)
  {
    ScalarParts(j);
    hide *;
    FlatOne(Tokens(j)[0]);
    assert Tokens(j) == [Tokens(j)[0]];
  }

  lemma ScalarParts(j: Json)
    requires Value(j) && j.kind != OBJECT && j.kind != ARRAY
    ensures |Tokens(j)| == 1 && Print(j, false) == Spelling(Tokens(j)[0])
  {
    assert j.kids == [];
    if j.kind == STRING { PlainText(j); }
  }

  /** Gaps without anything in them. */
  function NoGaps(n: nat): (gaps: seq<string>)
    ensures |gaps| == n
  {
    seq(n, _ => "")
  }

  lemma {:induction false} FlatIsJoin(ts: seq<Lexeme>)
    ensures Flat(ts) == Join(ts, NoGaps(|ts| + 1))
    decreases |ts|
  {
    if ts != [] {
      var n := |ts| - 1;
      FlatIsJoin(ts[..n]);
      assert NoGaps(n + 2) == NoGaps(n + 1) + [""] && ts == ts[..n] + [ts[n]];
      JoinMore(ts[..n], NoGaps(n + 1), ts[n], "");
      FlatMore(ts[..n], ts[n]);
      assert Spelling(ts[n]) + "" == Spelling(ts[n]);
    }
  }

  lemma {:induction false} JoinLength(ts: seq<Lexeme>, gaps: seq<string>)
    requires |gaps| == |ts| + 1
    ensures |Flat(ts)| <= |Join(ts, gaps)|
    decreases |ts|
  {
    if ts != [] { JoinLength(ts[..|ts| - 1], gaps[..|ts|]); }
  }

  /** Leaving out spare commas makes no text longer. */
  lemma {:induction false} PruneLength(ts: seq<Lexeme>)
    ensures |Flat(Prune(ts))| <= |Flat(ts)|
    decreases |ts|
  {
    if ts != [] {
      var n := |ts| - 1;
      var u, x := Prune(ts[..n]), ts[n];
      PruneLength(ts[..n]);
      hide Flat;
      assert ts == ts[..n] + [x];
      FlatMore(ts[..n], x);
      FlatMore(u, x);
      if x.tok == EndArray && SpareComma(u) {
        var w := u[..|u| - 1];
        assert u == w + [u[|u| - 1]];
        FlatMore(w, u[|u| - 1]);
        FlatMore(w, x);
      }
    }
  }

  /** What is printed is the document's tokens without a blank between them; of all texts that are this document,
      none is shorter. */
  lemma Shortest(j: Json, ts: seq<Lexeme>, gaps: seq<string>)
    requires Value(j) && |gaps| == |ts| + 1 && Prune(ts) == Tokens(j)
    ensures Print(j, false) == Join(Tokens(j), NoGaps(|Tokens(j)| + 1))
    ensures |Print(j, false)| <= |Join(ts, gaps)|
  {
    TokensPrinted(j, false);
    FlatIsJoin(Tokens(j));
    PruneLength(ts);
    JoinLength(ts, gaps);
    hide *;
  }
}
