/** Printing a linked document by walking along its links, without a stack. */
module JsonPrinting {
  import opened JsonParser
  import opened JsonPrint
  import opened JsonStrings
  import opened JsonNodes

  // What is still to be printed

  /** Where the cursor is below the root: its parent, the siblings after it, and where the parent is. */
  datatype Todo = AtRoot | Under(p: Node, rest: Forest, up: Todo)

  /** Only these kinds of nodes have their children printed. */
  predicate HasKids(kind: Kind) {
    kind == STRING || kind == OBJECT || kind == ARRAY
  }

  function Opening(kind: Kind, text: string, tag: bool): string {
    match kind
    case STRING => Quoted(text) + if tag then ":" else ""
    case NUMBER => text
    case OBJECT => "{"
    case ARRAY => "["
    case _ => Word(kind)
  }

  function Ending(kind: Kind): string {
    if kind == OBJECT then "}" else if kind == ARRAY then "]" else ""
  }

  function PrintForest(f: Forest, first: bool, tag: bool): string {
    match f
    case Nil => ""
    case Cons(n, kids, rest) => (if first then "" else ",") + Print(Said(n, kids), tag) + PrintForest(rest, false, tag)
  }

  function Tail(t: Todo): string {
    match t
    case AtRoot => ""
    case Under(p, rest, up) => PrintForest(rest, false, p.kind == OBJECT) + Ending(p.kind) + Tail(up)
  }

  lemma {:induction false} ForestText(j: Json, i: nat, f: Forest)
    requires i <= |j.kids| && Docs(f) == j.kids[i..]
    ensures PrintFrom(j, i) == PrintForest(f, i == 0, j.kind == OBJECT)
    decreases f
  {
    if f.Cons? {
      assert Docs(f)[0] == j.kids[i] && Docs(f)[1..] == j.kids[i + 1..];
      assert Docs(f)[1..] == Docs(f.rest);
      ForestText(j, i + 1, f.rest);
    }
  }

  /** A node's text is its opening, its children and its ending. */
  lemma PrintNode(n: Node, kids: Forest, tag: bool)
    ensures Print(Said(n, kids), tag) ==
      Opening(n.kind, n.text,
          tag) + (if HasKids(n.kind) then PrintForest(kids, true, n.kind == OBJECT) else "") + Ending(n.kind)
  {
    var j := Said(n, kids);
    assert j.kids[0..] == j.kids;
    ForestText(j, 0, kids);
  }

  // Trees that can be printed

  /** No label below an object lacks its value. */
  predicate Printable(n: Node, kids: Forest, tag: bool) {
    (n.kind == STRING && tag ==> kids.Cons?) && (HasKids(n.kind) ==> AllPrintable(kids, n.kind == OBJECT))
  }

  predicate AllPrintable(f: Forest, tag: bool) {
    f.Cons? ==>
      && (f.node.kind == STRING && tag ==> f.kids.Cons?)
      && (HasKids(f.node.kind) ==> AllPrintable(f.kids, f.node.kind == OBJECT))
      && AllPrintable(f.rest, tag)
  }

  predicate TodoPrintable(t: Todo) {
    t.Under? ==> AllPrintable(t.rest, t.p.kind == OBJECT) && TodoPrintable(t.up)
  }

  // Links

  /** Node `n` is where `t` says, below `root`. */
  ghost predicate Pos(s: Store, n: Node, t: Todo, root: Node) {
    match t
    case AtRoot => n == root
    case Under(p, rest, up) =>
      && n != root && n in s && s[n].parent == p && s[n].next == Head(rest, null)
      && Rep(s, rest, p, n, null) && root !in Nodes(rest) && Pos(s, p, up, root)
  }

  /** The cursor is on a node whose children are `kids`. */
  ghost predicate Here(s: Store, n: Node, kids: Forest, root: Node) {
    n in s && s[n].child == Head(kids, null) && Rep(s, kids, n, null, null) && root !in Nodes(kids)
  }

  /** The first child. */
  lemma GoDown(s: Store, n: Node, kids: Forest, t: Todo, root: Node)
    requires Pos(s, n, t, root) && Here(s, n, kids, root) && kids.Cons?
    ensures Pos(s, kids.node, Under(n, kids.rest, t), root) && Here(s, kids.node, kids.kids, root)
    ensures s[kids.node].previous == null
  {
  }

  /** The next sibling. */
  lemma GoOn(s: Store, n: Node, t: Todo, root: Node)
    requires Pos(s, n, t, root) && t.Under? && t.rest.Cons?
    ensures var m := t.rest.node;
      Pos(s, m, Under(t.p, t.rest.rest, t.up), root) && Here(s, m, t.rest.kids, root) && s[m].previous != null
          && s[n].next == m
  {
  }

  // The text that is left

  /** Whether a string here is a label. */
  function Tag(t: Todo, rootTag: bool): bool {
    if t.AtRoot? then rootTag else t.p.kind == OBJECT
  }

  function Comma(s: Store, n: Node, t: Todo): string
    requires n in s
  {
    if t.Under? && s[n].previous != null then "," else ""
  }

  /** What is left when a node is about to be opened. */
  function Left(s: Store, n: Node, kids: Forest, t: Todo, rootTag: bool): string
    requires n in s
  {
    Comma(s, n, t) + Print(Said(n, kids), Tag(t, rootTag)) + Tail(t)
  }

  lemma LeftDown(s: Store, n: Node, kids: Forest, t: Todo, root: Node, rootTag: bool)
    requires Pos(s, n, t, root) && Here(s, n, kids, root) && kids.Cons? && HasKids(n.kind)
    ensures kids.node in s
    ensures Left(s, n, kids, t, rootTag) ==
      Comma(s, n, t) + Opening(n.kind, n.text, Tag(t, rootTag)) + Left(s, kids.node, kids.kids, Under(n, kids.rest, t),
          rootTag)
  {
    PrintNode(n, kids, Tag(t, rootTag));
    Regroup(Comma(s, n, t), Opening(n.kind, n.text, Tag(t, rootTag)),
        Print(Said(kids.node, kids.kids), n.kind == OBJECT),
      PrintForest(kids.rest, false, n.kind == OBJECT), Ending(n.kind), Tail(t));
  }

  lemma Regroup(c: string, a: string, k: string, r: string, e: string, t: string)
    ensures c + (a + ("" + k + r) + e) + t == c + a + ("" + k + (r + e + t))
  {
  }

  lemma LeftAcross(s: Store, n: Node, kids: Forest, t: Todo, root: Node, rootTag: bool)
    requires Pos(s, n, t, root) && Here(s, n, kids, root) && (HasKids(n.kind) ==> kids.Nil?)
    ensures Left(s, n, kids, t, rootTag) ==
      Comma(s, n, t) + Opening(n.kind, n.text, Tag(t, rootTag)) + (Ending(n.kind) + Tail(t))
  {
    PrintNode(n, kids, Tag(t, rootTag));
    NoKids(Comma(s, n, t), Opening(n.kind, n.text, Tag(t, rootTag)), Ending(n.kind), Tail(t));
  }

  lemma NoKids(c: string, a: string, e: string, t: string)
    ensures c + (a + "" + e) + t == c + a + (e + t)
  {
  }

  lemma TailOn(s: Store, n: Node, t: Todo, root: Node, rootTag: bool)
    requires Pos(s, n, t, root) && t.Under? && t.rest.Cons?
    ensures t.rest.node in s && Tail(t) == Left(s, t.rest.node, t.rest.kids, Under(t.p, t.rest.rest, t.up), rootTag)
  {
    GoOn(s, n, t, root);
    CommaFirst(Print(Said(t.rest.node, t.rest.kids), t.p.kind == OBJECT),
        PrintForest(t.rest.rest, false, t.p.kind == OBJECT),
      Ending(t.p.kind), Tail(t.up));
  }

  lemma CommaFirst(k: string, r: string, e: string, t: string)
    ensures ("," + k + r) + e + t == "," + k + (r + e + t)
  {
  }

  lemma TailUp(t: Todo)
    requires t.Under? && t.rest.Nil?
    ensures Tail(t) == Ending(t.p.kind) + Tail(t.up)
  {
  }

  // The walk

  function Count(f: Forest): nat {
    if f.Nil? then 0 else 1 + Count(f.kids) + Count(f.rest)
  }

  function Far(t: Todo): nat {
    if t.AtRoot? then 0 else 2 * Count(t.rest) + 1 + Far(t.up)
  }

  /** A moment of the walk: the cursor is about to be opened, or closed. */
  datatype Moment = Moment(n: Node, opening: bool, kids: Forest, t: Todo)

  ghost predicate Sound(s: Store, m: Moment, root: Node) {
    m.n in s && Pos(s, m.n, m.t, root) && (m.opening ==> Here(s, m.n, m.kids, root))
  }

  function StepsLeft(m: Moment): nat {
    if m.opening then 2 * Count(m.kids) + 2 + Far(m.t) else 1 + Far(m.t)
  }

  /** The text that is left. */
  function Ahead(s: Store, m: Moment, rootTag: bool): string
    requires m.n in s
  {
    if m.opening then Left(s, m.n, m.kids, m.t, rootTag) else Ending(m.n.kind) + Tail(m.t)
  }

  predicate Fine(m: Moment, rootTag: bool) {
    (m.opening ==> Printable(m.n, m.kids, Tag(m.t, rootTag))) && TodoPrintable(m.t)
  }

  /** After opening a node, the walk goes down, or closes it. */
  function AfterOpen(m: Moment): Moment {
    if HasKids(m.n.kind) && m.kids.Cons? then Moment(m.kids.node, true, m.kids.kids, Under(m.n, m.kids.rest, m.t))
    else m.(opening := false)
  }

  lemma OpenMoment(s: Store, m: Moment, root: Node, rootTag: bool)
    requires Sound(s, m, root) && m.opening
    ensures Sound(s, AfterOpen(m), root) && StepsLeft(AfterOpen(m)) < StepsLeft(m)
    ensures Ahead(s, m, rootTag) ==
      Comma(s, m.n, m.t) + Opening(m.n.kind, m.n.text, Tag(m.t, rootTag)) + Ahead(s, AfterOpen(m), rootTag)
    ensures Fine(m, rootTag) <==>
        Fine(AfterOpen(m), rootTag) && (m.n.kind == STRING && Tag(m.t, rootTag) ==> m.kids.Cons?)
  {
    if HasKids(m.n.kind) && m.kids.Cons? {
      GoDown(s, m.n, m.kids, m.t, root);
      LeftDown(s, m.n, m.kids, m.t, root, rootTag);
    } else {
      LeftAcross(s, m.n, m.kids, m.t, root, rootTag);
    }
  }

  /** After closing a node below the root, the walk goes on to the next sibling, or up. */
  function AfterClose(m: Moment): Moment
    requires m.t.Under?
  {
    if m.t.rest.Cons? then Moment(m.t.rest.node, true, m.t.rest.kids, Under(m.t.p, m.t.rest.rest, m.t.up))
    else Moment(m.t.p, false, Nil, m.t.up)
  }

  lemma CloseMoment(s: Store, m: Moment, root: Node, rootTag: bool)
    requires Sound(s, m, root) && !m.opening && m.t.Under? && root in s
    ensures Sound(s, AfterClose(m), root) && StepsLeft(AfterClose(m)) < StepsLeft(m)
    ensures s[m.n].parent == m.t.p && s[m.n].next == if m.t.rest.Cons? then m.t.rest.node else null
    ensures Ahead(s, m, rootTag) == Ending(m.n.kind) + Ahead(s, AfterClose(m), rootTag)
    ensures Fine(m, rootTag) <==> Fine(AfterClose(m), rootTag)
  {
    if m.t.rest.Cons? {
      GoOn(s, m.n, m.t, root);
      TailOn(s, m.n, m.t, root, rootTag);
    } else {
      TailUp(m.t);
      ParentIn(s, m.t, root);
    }
  }

  lemma ParentIn(s: Store, t: Todo, root: Node)
    requires t.Under? && Pos(s, t.p, t.up, root) && root in s
    ensures t.p in s
  {
  }

  /** A string without a parent is printed as a label, like one below an object. */
  predicate RootTag(root: Node)
    reads root, root.parent
  {
    root.parent == null || root.parent.kind == OBJECT
  }

  method PrintQuoted(output: RcString, text: string)
    requires output.Valid()
    modifies output, output.text
    ensures output.Valid() && (output.text == old(output.text) || fresh(output.text))
    ensures output.Contents() == old(output.Contents()) + Quoted(text)
  {
    ghost var before := output.Contents();
    output.CatC('\"');
    output.CatCs(text);
    output.CatC('\"');
    assert before + ['\"'] + text + ['\"'] == before + Quoted(text);
  }

  /** What a node starts with; a label without a value is refused. */
  method PrintOpening(output: RcString, cursor: Node, tag: bool) returns (ok: bool)
    requires output.Valid()
    modifies output, output.text
    ensures output.Valid() && (output.text == old(output.text) || fresh(output.text))
    ensures ok <==> (cursor.kind == STRING && tag ==> cursor.child != null)
    ensures ok ==> output.Contents() == old(output.Contents()) + Opening(cursor.kind, cursor.text, tag)
  {
    ok := true;
    match cursor.kind {
      case STRING => ok := PrintLabel(output, cursor.text, tag, cursor.child != null);
      case NUMBER => output.CatCs(cursor.text);
      case OBJECT => output.CatC('{');
      case ARRAY => output.CatC('[');
      case TRUE => output.CatCs("true");
      case FALSE => output.CatCs("false");
      case NULL => output.CatCs("null");
    }
  }

  method PrintLabel(output: RcString, text: string, tag: bool, hasChild: bool) returns (ok: bool)
    requires output.Valid()
    modifies output, output.text
    ensures output.Valid() && (output.text == old(output.text) || fresh(output.text))
    ensures ok <==> (tag ==> hasChild)
    ensures ok ==> output.Contents() == old(output.Contents()) + Opening(STRING, text, tag)
  {
    PrintQuoted(output, text);
    ok := true;
    if tag {
      if hasChild { output.CatC(':'); } else { ok := false; }
    }
    assert Quoted(text) + "" == Quoted(text) && ":" == [':'];
  }

  method PrintEnding(output: RcString, cursor: Node)
    requires output.Valid()
    modifies output, output.text
    ensures output.Valid() && (output.text == old(output.text) || fresh(output.text))
    ensures output.Contents() == old(output.Contents()) + Ending(cursor.kind)
  {
    if cursor.kind == OBJECT { output.CatC('}'); }
    if cursor.kind == ARRAY { output.CatC(']'); }
  }

  /** What the links of the cursor say about where it is. */
  lemma MomentFacts(s: Store, m: Moment, root: Node)
    requires Sound(s, m, root)
    ensures m.n in s && (m.opening ==> s[m.n].child == Head(m.kids, null))
    ensures if m.t.AtRoot? then m.n == root else m.n != root && s[m.n].parent == m.t.p
  {
  }

  lemma CellOf(n: Node, nodes: set<Node>)
    requires n in Links(nodes)
    ensures Links(nodes)[n] == Cell(n.next, n.previous, n.parent, n.child, n.childEnd)
  {
  }

  /** The cursor's node is opened. */
  method OpenStep(output: RcString, cursor: Node, root: Node, ghost nodes: set<Node>, ghost m: Moment,
      ghost total: string)
      returns (ok: bool, next: Node, opening: bool, ghost m1: Moment)
    requires output.Valid() && root in nodes && Sound(Links(nodes), m, root) && m.opening && cursor == m.n
    requires output.Contents() + Ahead(Links(nodes), m, RootTag(root)) == total
    modifies output, output.text
    ensures output.Valid() && (output.text == old(output.text) || fresh(output.text))
    ensures Sound(Links(nodes), m1, root) && next == m1.n && opening == m1.opening
    ensures Fine(m, RootTag(root)) <==> Fine(m1, RootTag(root)) && ok
    ensures ok ==> StepsLeft(m1) < StepsLeft(m) && output.Contents() + Ahead(Links(nodes), m1, RootTag(root)) == total
  {
    ghost var s, tag := Links(nodes), RootTag(root);
    hide Sound, Ahead, Fine, StepsLeft, Opening, Links;
    OpenMoment(s, m, root, tag);
    MomentFacts(s, m, root);
    CellOf(cursor, nodes);
    PrintComma(output, cursor.previous != null && cursor != root);
    ok := PrintOpening(output, cursor, cursor.parent == null || cursor.parent.kind == OBJECT);
    m1 := AfterOpen(m);
    Joined(old(output.Contents()), Comma(s, m.n, m.t), Opening(m.n.kind, m.n.text, Tag(m.t, tag)), Ahead(s, m1, tag));
    if HasKids(cursor.kind) && cursor.child != null {
      next, opening := cursor.child, true;
    } else {
      next, opening := cursor, false;
    }
  }

  method PrintComma(output: RcString, comma: bool)
    requires output.Valid()
    modifies output, output.text
    ensures output.Valid() && (output.text == old(output.text) || fresh(output.text))
    ensures output.Contents() == old(output.Contents()) + if comma then "," else ""
  {
    if comma { output.CatC(','); }
  }

  lemma Joined(a: string, b: string, c: string, d: string)
    ensures a + (b + c + d) == a + b + c + d
  {
  }

  /** The cursor's node is closed. */
  method CloseStep(output: RcString, cursor: Node, root: Node, ghost nodes: set<Node>, ghost m: Moment,
      ghost total: string)
      returns (done: bool, next: Node, opening: bool, ghost m1: Moment)
    requires output.Valid() && root in nodes && Sound(Links(nodes), m, root) && !m.opening && cursor == m.n
    requires output.Contents() + Ahead(Links(nodes), m, RootTag(root)) == total
    modifies output, output.text
    ensures output.Valid() && (output.text == old(output.text) || fresh(output.text))
    ensures Sound(Links(nodes), m1, root) && next == m1.n && opening == m1.opening
    ensures Fine(m, RootTag(root)) <==> Fine(m1, RootTag(root))
    ensures done ==> output.Contents() == total && Fine(m1, RootTag(root))
    ensures !done ==> StepsLeft(m1) < StepsLeft(m)
    ensures !done ==> output.Contents() + Ahead(Links(nodes), m1, RootTag(root)) == total
  {
    ghost var s, tag := Links(nodes), RootTag(root);
    assert root in s;
    hide Sound, Ahead, Fine, StepsLeft, Links;
    MomentFacts(s, m, root);
    CellOf(cursor, nodes);
    if m.t.Under? { CloseMoment(s, m, root, tag); } else { CloseRoot(s, m, root, tag); }
    PrintEnding(output, cursor);
    m1, next, opening, done := m, cursor, false, true;
    if cursor.parent != null && cursor != root {
      done, m1 := false, AfterClose(m);
      Joined2(old(output.Contents()), Ending(cursor.kind), Ahead(s, m1, tag));
      if cursor.next != null {
        next, opening := cursor.next, true;
      } else {
        next := cursor.parent;
      }
    }
  }

  lemma Joined2(a: string, b: string, c: string)
    ensures a + (b + c) == a + b + c
  {
  }

  lemma CloseRoot(s: Store, m: Moment, root: Node, rootTag: bool)
    requires Sound(s, m, root) && !m.opening && m.t.AtRoot?
    ensures Ahead(s, m, rootTag) == Ending(m.n.kind) && Fine(m, rootTag)
  {
  }

  /** A node is opened or closed. */
  method WalkStep(output: RcString, cursor: Node, opening: bool, root: Node, ghost nodes: set<Node>, ghost m: Moment,
      ghost total: string)
      returns (ok: bool, done: bool, next: Node, opening1: bool, ghost m1: Moment)
    requires output.Valid() && root in nodes && Sound(Links(nodes), m, root) && opening == m.opening && cursor == m.n
    requires output.Contents() + Ahead(Links(nodes), m, RootTag(root)) == total
    modifies output, output.text
    ensures output.Valid() && (output.text == old(output.text) || fresh(output.text))
    ensures Sound(Links(nodes), m1, root) && next == m1.n && opening1 == m1.opening
    ensures Fine(m, RootTag(root)) <==> Fine(m1, RootTag(root)) && ok
    ensures ok && done ==> output.Contents() == total && Fine(m1, RootTag(root))
    ensures ok && !done ==> StepsLeft(m1) < StepsLeft(m)
    ensures ok && !done ==> output.Contents() + Ahead(Links(nodes), m1, RootTag(root)) == total
  {
    hide Sound, Ahead, Fine, StepsLeft, Links;
    ok, done := true, false;
    if opening {
      ok, next, opening1, m1 := OpenStep(output, cursor, root, nodes, m, total);
    } else {
      done, next, opening1, m1 := CloseStep(output, cursor, root, nodes, m, total);
    }
  }

  lemma FirstMoment(s: Store, root: Node, kids: Forest, tag: bool)
    requires root in s && Here(s, root, kids, root)
    ensures var m := Moment(root, true, kids, AtRoot);
      Sound(s, m, root) && (Fine(m, tag) <==> Printable(root, kids, tag))
          && Ahead(s, m, tag) == Print(Said(root, kids), tag)
  {
    var text := Print(Said(root, kids), tag);
    assert "" + text + "" == text;
  }

  /** The text of the document below `root`, exactly if every label in it has a value. */
  method TreeToString(root: Node, ghost nodes: set<Node>, ghost kids: Forest) returns (ok: bool, text: string)
    requires root in nodes && Here(Links(nodes), root, kids, root)
    ensures ok <==> Printable(root, kids, RootTag(root))
    ensures ok ==> text == Print(Said(root, kids), RootTag(root))
  {
    var output := new RcString(RSTRING_DEFAULT);
    var cursor, opening, done := root, true, false;
    ghost var s, tag := Links(nodes), RootTag(root);
    ghost var m := Moment(root, true, kids, AtRoot);
    ghost var total := Print(Said(root, kids), tag);
    FirstMoment(s, root, kids, tag);
    hide Sound, Ahead, StepsLeft, Print, Links, Printable, Fine;
    ok, text := true, "";
    while ok && !done
      invariant output.Valid() && fresh(output) && fresh(output.text)
      invariant Sound(s, m, root) && cursor == m.n && opening == m.opening
      invariant Fine(m, tag) && ok <==> Printable(root, kids, tag)
      invariant ok && done ==> Fine(m, tag)
      invariant ok && !done ==> output.Contents() + Ahead(s, m, tag) == total
      invariant ok && done ==> output.Contents() == total
      decreases ok, !done, StepsLeft(m)
    {
      ok, done, cursor, opening, m := WalkStep(output, cursor, opening, root, nodes, m, total);
    }
    if ok { text := output.Unwrap(); }
  }
}
