/** A parsed document can be printed, read back, and freed. */
module JsonDocument {
  import opened JsonLexer
  import opened JsonParser
  import opened JsonTrees
  import opened JsonPrint
  import opened JsonNodes
  import opened JsonParsing
  import opened JsonPrinting
  import opened JsonFreeing

  /** The children of a well-formed container. */
  ghost predicate AllValues(f: Forest, tag: bool) {
    forall i :: 0 <= i < |Docs(f)| ==> if tag then Member(Docs(f)[i]) else Value(Docs(f)[i])
  }

  lemma {:induction false} ValuesPrintable(f: Forest, tag: bool)
    requires AllValues(f, tag)
    ensures AllPrintable(f, tag)
  {
    if f.Cons? {
      var j := Docs(f)[0];
      assert if tag then Member(j) else Value(j);
      NextValues(f, tag);
      ValuesPrintable(f.rest, tag);
      if HasKids(f.node.kind) {
        assert AllValues(f.kids, f.node.kind == OBJECT);
        ValuesPrintable(f.kids, f.node.kind == OBJECT);
      }
      if tag { DocsLength(f.kids); }
    }
  }

  lemma NextValues(f: Forest, tag: bool)
    requires f.Cons? && AllValues(f, tag)
    ensures AllValues(f.rest, tag)
  {
    forall i | 0 <= i < |Docs(f.rest)| ensures if tag then Member(Docs(f.rest)[i]) else Value(Docs(f.rest)[i]) {
      assert Docs(f)[i + 1] == Docs(f.rest)[i];
    }
  }

  lemma DocsLength(f: Forest)
    ensures Docs(f) == [] <==> f.Nil?
  {
  }

  /** A finished document in memory. */
  lemma FinishedPlace(s: Store, p: Path)
    requires Place(s, p) && Stacked(Stack(p)) && |Stack(p)| == 1
    ensures p.Open? && p.up.Top? && Value(Said(p.node, p.kids)) && p.node.kind == OBJECT
    ensures Stack(p) == [Said(p.node, p.kids)]
    ensures Here(s, p.node, p.kids, p.node) && s[p.node].parent == null
    ensures Printable(p.node, p.kids, true)
    ensures Walking(s, p.node, p.kids, AtRoot, p.node) && LinksLive(s, p.node) && LinksOut(s, p.node, p.kids)
  {
    StackCursor(p);
    StackCursor(p.up);
    assert Stack(p)[0] == Said(p.node, p.kids);
    assert AllValues(p.kids, true);
    ValuesPrintable(p.kids, true);
  }

  /** A parsed document is printed; parsing the text gives the same document. */
  method PrintParsed(info: ParsingInfo) returns (text: string)
    requires info.Valid() && info.state == 99
    ensures Feed(INIT, text) == Fed(Parser(99, START, Stack(info.path)), WaitingForEof)
  {
    FinishedPlace(info.Memory(), info.path);
    var root: Node := info.cursor;
    assert info.Memory()[root].parent == root.parent;
    var ok;
    ok, text := TreeToString(root, info.nodes, info.path.kids);
    TagIrrelevant(info.path.node, info.path.kids);
    RoundTrip(Said(info.path.node, info.path.kids));
  }

  lemma TagIrrelevant(n: Node, kids: Forest)
    requires n.kind == OBJECT
    ensures Print(Said(n, kids), true) == Print(Said(n, kids), false)
  {
  }

  /** A parsed document is freed: every node of it once, the root last. */
  method FreeParsed(info: ParsingInfo) returns (ghost freed: seq<Node>)
    requires info.Valid() && info.state == 99
    modifies info.nodes
    ensures freed == PostOrder(old(info.path.kids)) + [old(info.path.node)]
    ensures SetOf(freed) == old(PathNodes(info.path))
  {
    FinishedPlace(info.Memory(), info.path);
    ghost var kids := info.path.kids;
    var goesOn: bool;
    freed, goesOn := FreeValue(info.cursor, Variable, info.nodes, kids);
    PostOrderNodes(kids);
    SetOfSum(PostOrder(kids), [info.cursor]);
    assert SetOf([info.cursor]) == {info.cursor};
  }

  ghost function SetOf(xs: seq<Node>): set<Node> {
    set x | x in xs
  }

  lemma SetOfSum(a: seq<Node>, b: seq<Node>)
    ensures SetOf(a + b) == SetOf(a) + SetOf(b)
  {
  }

  lemma {:induction false} PostOrderNodes(f: Forest)
    ensures SetOf(PostOrder(f)) == Nodes(f)
  {
    if f.Cons? {
      PostOrderNodes(f.kids);
      PostOrderNodes(f.rest);
      SetOfSum(PostOrder(f.kids) + [f.node], PostOrder(f.rest));
      SetOfSum(PostOrder(f.kids), [f.node]);
      assert SetOf([f.node]) == {f.node};
    } else {
      assert SetOf([]) == {};
    }
  }

  /** No node is freed twice. */
  lemma {:induction false} FreedOnce(f: Forest)
    requires Apart(f)
    ensures forall i, j :: 0 <= i < j < |PostOrder(f)| ==> PostOrder(f)[i] != PostOrder(f)[j]
  {
    if f.Cons? {
      FreedOnce(f.kids);
      FreedOnce(f.rest);
      PostOrderNodes(f.kids);
      PostOrderNodes(f.rest);
      Distinct(PostOrder(f.kids), f.node, PostOrder(f.rest));
    }
  }

  lemma Distinct(a: seq<Node>, x: Node, b: seq<Node>)
    requires forall i, j :: 0 <= i < j < |a| ==> a[i] != a[j]
    requires forall i, j :: 0 <= i < j < |b| ==> b[i] != b[j]
    requires x !in SetOf(a) && x !in SetOf(b) && SetOf(a) !! SetOf(b)
    ensures var c := a + [x] + b; forall i, j :: 0 <= i < j < |c| ==> c[i] != c[j]
  {
    var c := a + [x] + b;
    forall i, j | 0 <= i < j < |c| ensures c[i] != c[j] {
      if i < |a| { assert c[i] in SetOf(a); }
      if j < |a| { assert c[j] in SetOf(a); }
      if i > |a| { assert c[i] == b[i - |a| - 1]; }
      if j > |a| { assert c[j] == b[j - |a| - 1] && c[j] in SetOf(b); }
    }
  }
}
