/** What the tree functions do outside what the parser asks of them. */
module JsonEdges {
  import opened JsonParser
  import opened JsonNodes
  import opened JsonParsing
  import opened JsonPrinting
  import opened JsonFreeing

  /** Two children, one after the other, below a new node. */
  method TwoChildren(parent: Kind, kind: Kind) returns (info: ParsingInfo, top: Node, first: Node, second: Node)
    requires Accepts(parent, kind, false)
    ensures fresh(info) && fresh(info.nodes) && info.nodes == {top, first, second}
    ensures top.kind == parent && first.kind == second.kind == kind && top != first && top != second && first != second
    ensures Links(info.nodes) == Pair(top, first, second)
  {
    info := new ParsingInfo();
    top := new Node(parent, "");
    first := new Node(kind, "");
    second := new Node(kind, "");
    info.nodes := {top, first, second};
    assert Links(info.nodes) == map[top := LOOSE, first := LOOSE, second := LOOSE];
    InsertBoth(info, top, first, second);
  }

  method InsertBoth(info: ParsingInfo, top: Node, first: Node, second: Node)
    requires top != first && top != second && first != second && info.nodes == {top, first, second}
    requires Accepts(top.kind, first.kind, false) && second.kind == first.kind
    requires Links(info.nodes) == map[top := LOOSE, first := LOOSE, second := LOOSE]
    modifies info.nodes
    ensures Links(info.nodes) == Pair(top, first, second)
  {
    InsertedTwo(top, first, second);
    hide Inserted, Pair;
    LinksOf(info.nodes, top);
    LinksOf(info.nodes, first);
    var ok := info.InsertChild(top, first);
    LinksOf(info.nodes, top);
    LinksOf(info.nodes, second);
    ok := info.InsertChild(top, second);
  }

  lemma LinksOf(nodes: set<Node>, x: Node)
    requires x in nodes
    ensures Links(nodes)[x] == Cell(x.next, x.previous, x.parent, x.child, x.childEnd)
  {
  }

  ghost function Pair(top: Node, first: Node, second: Node): Store {
    map[top := Cell(null, null, null, first, second), first := Cell(second, null, top, null, null),
        second := Cell(null, first, top, null, null)]
  }

  lemma InsertedTwo(top: Node, first: Node, second: Node)
    requires top != first && top != second && first != second
    ensures var s := map[top := LOOSE, first := LOOSE, second := LOOSE];
      var s1 := Inserted(s, top, first);
      && s1 == map[top := Cell(null, null, null, first, first), first := Cell(null, null, top, null, null),
                   second := LOOSE]
      && Inserted(s1, top, second) == Pair(top, first, second)
  {
  }

  /** A label that has a value takes another: only the child's own children are asked about. That every label has
      one value is up to the parser. */
  method SecondValue() returns (name: Node, first: Node, second: Node)
    ensures name.kind == STRING && name.child == first && first.next == second == name.childEnd && first != second
    ensures first.parent == second.parent == name
  {
    var info;
    info, name, first, second := TwoChildren(STRING, TRUE);
    ghost var s := Links(info.nodes);
    assert s[name].child == name.child && s[name].last == name.childEnd && s[first].next == first.next;
    assert s[first].parent == first.parent && s[second].parent == second.parent;
  }

  /** The first of two children is freed by the parent's own pointer to it: the parent loses the other one too. */
  method FirstChildFreed() returns (top: Node, second: Node, goesOn: bool)
    ensures !goesOn && top.child == null && top.childEnd == second && second.parent == top
  {
    var info, first;
    ghost var freed;
    info, top, first, second := TwoChildren(ARRAY, TRUE);
    ghost var nodes := info.nodes;
    ghost var s := Links(nodes);
    FirstGone(top, first, second);
    hide Unlinked, Cleared, Pair;
    freed, goesOn := FreeValue(first, ParentsFirst, nodes, Nil);
    assert {first} + Nodes(Nil) == {first};
    ghost var rest := Links(nodes - {first});
    assert rest[top].child == top.child && rest[top].last == top.childEnd && rest[second].parent == second.parent;
  }

  lemma FirstGone(top: Node, first: Node, second: Node)
    requires top != first && top != second && first != second
    ensures var s := Pair(top, first, second);
      && Walking(s, first, Nil, AtRoot, first) && LinksLive(s, first) && LinksOut(s, first, Nil)
      && Leads(s, first, ParentsFirst) && !GoesOn(s, first, ParentsFirst)
          && LinksLive(Cleared(s, first, ParentsFirst), first)
      && Unlinked(Cleared(s, first, ParentsFirst), first) - {first} ==
         map[top := Cell(null, null, null, null, second), second := Cell(null, null, top, null, null)]
  {
  }
}
