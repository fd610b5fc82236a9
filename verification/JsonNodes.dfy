/** Document trees in memory: nodes linked to their parent, siblings, and first and last child. */
module JsonNodes {
  import opened JsonParser

  class Node {
    const kind: Kind
    const text: string
    var next: Node?
    var previous: Node?
    var parent: Node?
    var child: Node?
    var childEnd: Node?

    constructor (kind: Kind, text: string)
      ensures this.kind == kind && this.text == text
      ensures next == null && previous == null && parent == null && child == null && childEnd == null
    {
      this.kind, this.text := kind, text;
      next, previous, parent, child, childEnd := null, null, null, null, null;
    }
  }

  datatype Cell = Cell(next: Node?, previous: Node?, parent: Node?, child: Node?, last: Node?)

  /** The links of some nodes. */
  type Store = map<Node, Cell>

  ghost function Links(nodes: set<Node>): Store
    reads nodes
  {
    map x | x in nodes :: Cell(x.next, x.previous, x.parent, x.child, x.childEnd)
  }

  const LOOSE := Cell(null, null, null, null, null)

  /** A list of siblings, each with its children. */
  datatype Forest = Nil | Cons(node: Node, kids: Forest, rest: Forest)

  /** The way down to a node, the cursor, which is the last child so far; with the children of each node on the way. */
  datatype Path = Top | Open(up: Path, node: Node, kids: Forest)

  // What a document says

  function Said(node: Node, kids: Forest): Json {
    Json(node.kind, node.text, Docs(kids))
  }

  function Docs(f: Forest): seq<Json> {
    match f
    case Nil => []
    case Cons(n, kids, rest) => [Json(n.kind, n.text, Docs(kids))] + Docs(rest)
  }

  /** The document on the way to the cursor. */
  function Stack(p: Path): seq<Json> {
    match p
    case Top => []
    case Open(up, n, kids) => Stack(up) + [Said(n, kids)]
  }

  function Snoc(f: Forest, node: Node, kids: Forest): Forest {
    match f
    case Nil => Cons(node, kids, Nil)
    case Cons(n, k, rest) => Cons(n, k, Snoc(rest, node, kids))
  }

  lemma {:induction false} DocsSnoc(f: Forest, node: Node, kids: Forest)
    ensures Docs(Snoc(f, node, kids)) == Docs(f) + [Said(node, kids)]
  {
    if f.Cons? { DocsSnoc(f.rest, node, kids); }
  }

  // Separation

  ghost function Nodes(f: Forest): set<Node> {
    match f
    case Nil => {}
    case Cons(n, kids, rest) => {n} + Nodes(kids) + Nodes(rest)
  }

  ghost function PathNodes(p: Path): set<Node> {
    match p
    case Top => {}
    case Open(up, n, kids) => PathNodes(up) + {n} + Nodes(kids)
  }

  /** No node occurs twice. */
  ghost predicate Apart(f: Forest) {
    f.Cons? ==>
        f.node !in Nodes(f.kids) && f.node !in Nodes(f.rest) && Nodes(f.kids) !! Nodes(f.rest) && Apart(f.kids)
        && Apart(f.rest)
  }

  ghost predicate PathApart(p: Path) {
    p.Open? ==>
        p.node !in Nodes(p.kids) && Apart(p.kids) && ({p.node} + Nodes(p.kids)) !! PathNodes(p.up) && PathApart(p.up)
  }

  lemma {:induction false} NodesSnoc(f: Forest, node: Node, kids: Forest)
    ensures Nodes(Snoc(f, node, kids)) == Nodes(f) + {node} + Nodes(kids)
    ensures Apart(f) && node !in Nodes(f) && node !in Nodes(kids) && Apart(kids) && Nodes(f) !! Nodes(kids) ==>
        Apart(Snoc(f, node, kids))
  {
    if f.Cons? { NodesSnoc(f.rest, node, kids); }
  }

  // Links

  function Head(f: Forest, after: Node?): Node? {
    if f.Nil? then after else f.node
  }

  function Last(f: Forest, before: Node?): Node? {
    match f
    case Nil => before
    case Cons(n, _, rest) => Last(rest, n)
  }

  /** The siblings of `f` are linked, from `previous` before to `after` behind, below `parent`. */
  ghost predicate Rep(s: Store, f: Forest, parent: Node?, previous: Node?, after: Node?) {
    match f
    case Nil => true
    case Cons(n, kids, rest) =>
      && n in s && s[n] == Cell(Head(rest, after), previous, parent, Head(kids, null), Last(kids, null))
      && Rep(s, kids, n, null, null) && Rep(s, rest, parent, n, after)
  }

  function Above(p: Path): Node? {
    if p.Top? then null else p.node
  }

  /** The last child of the cursor so far. */
  function LastKid(p: Path): Node? {
    if p.Top? then null else Last(p.kids, null)
  }

  /** The nodes down to the cursor are linked; `after` is the child of the cursor that is still open, or null. */
  ghost predicate Spine(s: Store, p: Path, after: Node?) {
    match p
    case Top => true
    case Open(up, n, kids) =>
      && n in s
          && s[n] == Cell(null, LastKid(up), Above(up), Head(kids, after),
          if after != null then after else Last(kids, null))
      && Rep(s, kids, n, null, after) && Spine(s, up, n)
  }

  ghost predicate Agree(s: Store, s': Store, xs: set<Node>) {
    forall x {:trigger x in xs} :: x in xs && x in s ==> x in s' && s'[x] == s[x]
  }

  lemma {:induction false} RepFrame(s: Store, s': Store, f: Forest, parent: Node?, previous: Node?, after: Node?)
    requires Rep(s, f, parent, previous, after) && Agree(s, s', Nodes(f))
    ensures Rep(s', f, parent, previous, after)
  {
    if f.Cons? {
      assert f.node in Nodes(f) && Nodes(f.kids) <= Nodes(f) && Nodes(f.rest) <= Nodes(f);
      RepFrame(s, s', f.kids, f.node, null, null);
      RepFrame(s, s', f.rest, parent, f.node, after);
    }
  }

  lemma {:induction false} SpineFrame(s: Store, s': Store, p: Path, after: Node?)
    requires Spine(s, p, after) && Agree(s, s', PathNodes(p))
    ensures Spine(s', p, after)
  {
    if p.Open? {
      assert p.node in PathNodes(p) && Nodes(p.kids) <= PathNodes(p) && PathNodes(p.up) <= PathNodes(p);
      RepFrame(s, s', p.kids, p.node, null, after);
      SpineFrame(s, s', p.up, p.node);
    }
  }

  /** The document from the root to the cursor is in memory. */
  ghost predicate Place(s: Store, p: Path) {
    Spine(s, p, null) && PathApart(p) && PathNodes(p) <= s.Keys
  }

  /** The cursor moves up: its node is the last complete child of its parent. */
  function Raised(p: Path): Path
    requires p.Open? && p.up.Open?
  {
    Open(p.up.up, p.up.node, Snoc(p.up.kids, p.node, p.kids))
  }

  lemma {:induction false} RepSnoc(s: Store, f: Forest, node: Node, kids: Forest, parent: Node?, previous: Node?)
    requires Rep(s, f, parent, previous, node) && Rep(s, kids, node, null, null)
    requires node in s && s[node] == Cell(null, Last(f, previous), parent, Head(kids, null), Last(kids, null))
    ensures Rep(s, Snoc(f, node, kids), parent, previous, null)
    ensures Head(Snoc(f, node, kids), null) == Head(f, node) && Last(Snoc(f, node, kids), previous) == node
  {
    if f.Cons? { RepSnoc(s, f.rest, node, kids, parent, f.node); }
  }

  lemma UpStack(p: Path)
    requires p.Open? && p.up.Open?
    ensures |Stack(p)| >= 2 && Stack(Raised(p)) == Up(Stack(p))
  {
    DocsSnoc(p.up.kids, p.node, p.kids);
    var base, a, b := Stack(p.up.up), Said(p.up.node, p.up.kids), Said(p.node, p.kids);
    UpSeq(base, a, b);
    assert Add(a, b) == Said(p.up.node, Snoc(p.up.kids, p.node, p.kids));
  }

  lemma UpSeq(base: seq<Json>, a: Json, b: Json)
    ensures Up(base + [a] + [b]) == base + [Add(a, b)]
  {
    assert (base + [a] + [b])[..|base| + 1] == base + [a];
    assert (base + [a])[..|base|] == base;
  }

  lemma UpSpine(s: Store, p: Path)
    requires Spine(s, p, null) && p.Open? && p.up.Open?
    ensures Spine(s, Raised(p), null)
  {
    assert Spine(s, p.up, p.node);
    RepSnoc(s, p.up.kids, p.node, p.kids, p.up.node, null);
  }

  lemma UpNodes(p: Path)
    requires PathApart(p) && p.Open? && p.up.Open?
    ensures PathApart(Raised(p)) && PathNodes(Raised(p)) == PathNodes(p)
  {
    NodesSnoc(p.up.kids, p.node, p.kids);
  }

  /** Moving the cursor up changes nothing in memory. */
  lemma UpPlace(s: Store, p: Path)
    requires Place(s, p) && p.Open? && p.up.Open?
    ensures Place(s, Raised(p)) && PathNodes(Raised(p)) == PathNodes(p)
  {
    UpSpine(s, p);
    UpNodes(p);
  }

  /** The links after json_insert_child. */
  function Inserted(s: Store, parent: Node, child: Node): Store
    requires parent in s && child in s
    requires s[parent].child != null ==> s[parent].last != null && s[parent].last in s
  {
    var s1 := s[child := s[child].(parent := parent)];
    if s[parent].child == null then s1[parent := s1[parent].(child := child, last := child)] else
      var last: Node := s[parent].last;
      var s2 := s1[child := s1[child].(previous := last)];
      var s3 := s2[last := s2[last].(next := child)];
      s3[parent := s3[parent].(last := child)]
  }

  /** A last sibling gets a successor. */
  lemma {:induction false} RepAfter(s: Store, f: Forest, parent: Node?, previous: Node?, after: Node)
    requires Rep(s, f, parent, previous, null) && Apart(f) && f.Cons?
    ensures var last := Last(f, previous);
      last != null && last in s && last in Nodes(f)
          && Rep(s[last := s[last].(next := after)], f, parent, previous, after)
  {
    if f.rest.Cons? {
      RepAfter(s, f.rest, parent, f.node, after);
      var last: Node := Last(f, previous);
      assert last in Nodes(f.rest);
      RepFrame(s, s[last := s[last].(next := after)], f.kids, f.node, null, null);
    } else {
      RepFrame(s, s[f.node := s[f.node].(next := after)], f.kids, f.node, null, null);
    }
  }

  /** A new node under the cursor. */
  function Push(p: Path, node: Node): Path {
    Open(p, node, Nil)
  }

  /** The cursor's own links and its children, with a new node behind them. */
  lemma InsertedHere(s: Store, up: Path, n: Node, kids: Forest, node: Node)
    requires Spine(s, Open(up, n, kids), null) && PathApart(Open(up, n, kids)) && PathNodes(Open(up, n, kids)) <= s.Keys
    requires node in s && s[node] == LOOSE && node !in PathNodes(Open(up, n, kids))
    ensures s[n].child != null ==> s[n].last != null && s[n].last in s
    ensures var s' := Inserted(s, n, node);
      && n in s' && s'[n] == Cell(null, LastKid(up), Above(up), Head(kids, node), node) && Rep(s', kids, n, null, node)
      && node in s' && s'[node] == Cell(null, Last(kids, null), n, null, null) && s'.Keys == s.Keys
          && Agree(s, s', PathNodes(up))
  {
    if kids.Cons? {
      RepAfter(s, kids, n, null, node);
      var last: Node := Last(kids, null);
      var s1 := s[last := s[last].(next := node)];
      var s' := Inserted(s, n, node);
      assert last in Nodes(kids);
      RepFrame(s1, s', kids, n, null, node);
    }
  }

  /** A new node in place. */
  lemma PushPlace(s: Store, p: Path, node: Node)
    requires Place(s, p) && p.Open? && node in s && s[node] == LOOSE && node !in PathNodes(p)
    ensures p.node in s && (s[p.node].child != null ==> s[p.node].last != null && s[p.node].last in s)
    ensures Place(Inserted(s, p.node, node), Push(p, node))
  {
    InsertedHere(s, p.up, p.node, p.kids, node);
    SpineFrame(s, Inserted(s, p.node, node), p.up, p.node);
  }

  /** The first node, with nothing above it. */
  lemma RootPlace(s: Store, node: Node)
    requires node in s && s[node] == LOOSE
    ensures Place(s, Push(Top, node))
  {
  }
}
