/** Where a node is in an AVL tree, and which node comes next. */
module AvlWalk {
  import opened AvlShape
  import opened AvlStore
  import opened Sequences

  /** The way from a subtree up to the root. */
  datatype Path = Root | Step(up: Path, side: Side, x: Node, h: nat, o: Tree)

  function Above(p: Path): Node? {
    if p.Root? then null else p.x
  }

  function Plug(p: Path, t: Tree): Tree {
    if p.Root? then t else Plug(p.up, Pair(p.side, t, p.x, p.h, p.o))
  }

  /** The nodes before and after the subtree. */
  function Before(p: Path): seq<Node> {
    match p
    case Root => []
    case Step(up, side, x, _, o) => if side == L then Before(up) else Before(up) + Inorder(o) + [x]
  }

  function After(p: Path): seq<Node> {
    match p
    case Root => []
    case Step(up, side, x, _, o) => if side == R then After(up) else [x] + Inorder(o) + After(up)
  }

  lemma {:induction false} InorderPlug(p: Path, t: Tree)
    ensures Inorder(Plug(p, t)) == Before(p) + Inorder(t) + After(p)
  {
    if p.Step? {
      InorderPlug(p.up, Pair(p.side, t, p.x, p.h, p.o));
      RegroupAround(Before(p.up), Inorder(t), p.x, Inorder(p.o), After(p.up));
      RegroupAround(Before(p.up), Inorder(p.o), p.x, Inorder(t), After(p.up));
    }
  }

  /** A subtree in place: linked below its parent, and so on up to the root. */
  ghost predicate Place(s: Store, root: Node?, p: Path, t: Tree) {
    Rep(s, t, Top(t), Above(p)) && Apart(Plug(p, t)) && Upward(s, root, p, Top(t))
  }

  /** The links on the way up, and the child links down to `at`. */
  ghost predicate Upward(s: Store, root: Node?, p: Path, at: Node?) {
    match p
    case Root => root == at
    case Step(up, side, x, _, o) =>
      x in s && Child(s[x], side) == at && Child(s[x], Other(side)) == Top(o) && s[x].parent == Above(up)
          && Upward(s, root, up, x)
  }

  /** Down to a child. */
  lemma Down(s: Store, root: Node?, p: Path, side: Side, t: Tree, x: Node, h: nat, o: Tree)
    requires Place(s, root, p, Pair(side, t, x, h, o))
    ensures Place(s, root, Step(p, side, x, h, o), t) && x in s && Child(s[x], side) == Top(t)
  {
    assert Rep(s, t, Child(s[x], side), x);
    assert Rep(s, o, Child(s[x], Other(side)), x);
  }

  /** To any node of a tree in place. */
  lemma {:induction false} PathTo(s: Store, root: Node?, p: Path, t: Tree, n: Node)
      returns (q: Path, l: Tree, h: nat, r: Tree)
    requires Place(s, root, p, t) && n in Nodes(t)
    ensures Place(s, root, q, Fork(l, n, h, r)) && Plug(q, Fork(l, n, h, r)) == Plug(p, t)
    decreases t
  {
    if t.x == n {
      q, l, h, r := p, t.l, t.h, t.r;
    } else if n in Nodes(t.l) {
      Down(s, root, p, L, t.l, t.x, t.h, t.r);
      q, l, h, r := PathTo(s, root, Step(p, L, t.x, t.h, t.r), t.l, n);
    } else {
      Down(s, root, p, R, t.r, t.x, t.h, t.l);
      q, l, h, r := PathTo(s, root, Step(p, R, t.x, t.h, t.l), t.r, n);
    }
  }

  /** The next node is the first one to the right, below or above. */
  lemma NextIsFirst(p: Path, l: Tree, x: Node, h: nat, r: Tree)
    ensures var xs, i := Inorder(Plug(p, Fork(l, x, h, r))), |Before(p)| + |Inorder(l)|;
      i < |xs| && xs[i] == x && NextAt<Node?>(xs, i, null) == First<Node?>(Inorder(r) + After(p), null)
  {
    InorderPlug(p, Fork(l, x, h, r));
    NextInMiddle<Node?>(Before(p), Inorder(l), x, Inorder(r), After(p), null);
  }

  /** Only the top of the subtree and the way up are looked at. */
  ghost predicate On(s: Store, root: Node?, p: Path, t: Tree) {
    t.Fork? && t.x in s && s[t.x].parent == Above(p) && Apart(Plug(p, t)) && Upward(s, root, p, t.x)
  }

  /** The link down from the parent tells the side; at the root there is no parent. */
  lemma {:induction false} WhichSide(s: Store, root: Node?, p: Path, t: Tree)
    requires On(s, root, p, t)
    ensures t.x in s && s[t.x].parent == Above(p) && (t.x == root <==> p.Root?)
    ensures p.Step? ==> p.x in s && (s[p.x].left == t.x <==> p.side == L)
  {
    PlugApart(p, t);
    if p.Step? {
      TopNode(p.o);
      RootAbove(s, root, p, Top(t));
    }
  }

  ghost function PathNodes(p: Path): set<Node> {
    if p.Root? then {} else {p.x} + Nodes(p.o) + PathNodes(p.up)
  }

  lemma {:induction false} PlugApart(p: Path, t: Tree)
    requires Apart(Plug(p, t))
    ensures Apart(t) && Nodes(t) !! PathNodes(p) && Nodes(Plug(p, t)) == Nodes(t) + PathNodes(p)
  {
    if p.Step? { PlugApart(p.up, Pair(p.side, t, p.x, p.h, p.o)); }
  }

  lemma {:induction false} RootAbove(s: Store, root: Node?, p: Path, at: Node?)
    requires Upward(s, root, p, at) && p.Step?
    ensures root in PathNodes(p)
  {
    if p.up.Step? { RootAbove(s, root, p.up, p.x); }
  }

  /** One step up. */
  lemma GoUp(s: Store, root: Node?, p: Path, t: Tree)
    requires On(s, root, p, t) && p.Step?
    ensures On(s, root, p.up, Pair(p.side, t, p.x, p.h, p.o))
  {
  }
}
