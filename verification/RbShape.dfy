/** Red-black trees as shapes: trees of nodes, paths to a hole in them, and their colours. */
module RbShape {
  import opened Sequences
  import opened Words

  /** A tree node. Leaves are not null pointers but one shared black node, the sentinel. */
  class Node {
    var key: int
    var left: Node?
    var right: Node?
    var parent: Node?
    var red: bool

    /** A new node, linked to nothing. */
    constructor Fresh(key: int)
      ensures this.key == key
    {
      this.key, left, right, parent, red := key, null, null, null, false;
    }

    /** A copy of another node. */
    constructor (from: Node)
      ensures key == from.key && left == from.left && right == from.right && parent == from.parent && red == from.red
    {
      key, left, right, parent, red := from.key, from.left, from.right, from.parent, from.red;
    }
  }

  /** The shape of a subtree. A stub is a node of which only the place is known, not what is below it. */
  datatype Tree = Leaf | Stub(node: Node) | Fork(l: Tree, x: Node, red: bool, r: Tree)

  datatype Side = L | R

  /** The way from a hole in a tree up to the root: at each node, the side the hole is on and the other subtree. */
  datatype Path = Top | Step(up: Path, side: Side, x: Node, red: bool, o: Tree)

  function Other(side: Side): Side {
    if side == L then R else L
  }

  /** The tree at `x` with `t` on side `side` and `o` on the other. */
  function Pair(side: Side, t: Tree, x: Node, red: bool, o: Tree): Tree {
    if side == L then Fork(t, x, red, o) else Fork(o, x, red, t)
  }

  function Inorder(t: Tree): seq<Node> {
    match t
    case Leaf => []
    case Stub(x) => [x]
    case Fork(l, x, _, r) => Inorder(l) + [x] + Inorder(r)
  }

  /** The nodes before and after the hole. */
  function Before(p: Path): seq<Node> {
    match p
    case Top => []
    case Step(up, side, x, _, o) => if side == L then Before(up) else Before(up) + Inorder(o) + [x]
  }

  function After(p: Path): seq<Node> {
    match p
    case Top => []
    case Step(up, side, x, _, o) => if side == R then After(up) else [x] + Inorder(o) + After(up)
  }

  /** The whole tree, with `t` in the hole. */
  function Plug(p: Path, t: Tree): Tree {
    match p
    case Top => t
    case Step(up, side, x, red, o) => Plug(up, Pair(side, t, x, red, o))
  }

  lemma {:induction false} InorderPlug(p: Path, t: Tree)
    ensures Inorder(Plug(p, t)) == Before(p) + Inorder(t) + After(p)
  {
    if p.Step? {
      InorderPlug(p.up, Pair(p.side, t, p.x, p.red, p.o));
      RegroupAround(Before(p.up), Inorder(t), p.x, Inorder(p.o), After(p.up));
      RegroupAround(Before(p.up), Inorder(p.o), p.x, Inorder(t), After(p.up));
    }
  }

  // Separation

  ghost function Nodes(t: Tree): set<Node> {
    match t
    case Leaf => {}
    case Stub(x) => {x}
    case Fork(l, x, _, r) => Nodes(l) + {x} + Nodes(r)
  }

  ghost function PathNodes(p: Path): set<Node> {
    match p
    case Top => {}
    case Step(up, _, x, _, o) => {x} + Nodes(o) + PathNodes(up)
  }

  /** No node occurs twice in the tree. */
  ghost predicate Apart(t: Tree) {
    match t
    case Fork(l, x, _, r) => x !in Nodes(l) && x !in Nodes(r) && Nodes(l) !! Nodes(r) && Apart(l) && Apart(r)
    case _ => true
  }

  /** No node occurs twice on and beside the path. */
  ghost predicate PathApart(p: Path) {
    match p
    case Top => true
    case Step(up, _, x, _, o) => x !in Nodes(o) && Apart(o) && PathApart(up) && ({x} + Nodes(o)) !! PathNodes(up)
  }

  lemma {:induction false} NodesPlug(p: Path, t: Tree)
    ensures Nodes(Plug(p, t)) == Nodes(t) + PathNodes(p)
    ensures Apart(Plug(p, t)) <==> Apart(t) && PathApart(p) && Nodes(t) !! PathNodes(p)
  {
    if p.Step? { NodesPlug(p.up, Pair(p.side, t, p.x, p.red, p.o)); }
  }

  // Colours

  predicate Red(t: Tree) {
    t.Fork? && t.red
  }

  /** Black nodes on the leftmost way down. */
  function Blacks(t: Tree): nat {
    match t
    case Leaf => 0
    case Stub(_) => 1
    case Fork(l, _, red, _) => Blacks(l) + if red then 0 else 1
  }

  /** No red node has a red child, and all ways down pass the same number of black nodes. */
  predicate RedBlack(t: Tree) {
    match t
    case Fork(l, _, red, r) =>
      RedBlack(l) && RedBlack(r) && Blacks(l) == Blacks(r) && (red ==> !Red(l) && !Red(r))
    case _ => true
  }

  function Height(t: Tree): nat {
    match t
    case Fork(l, _, _, r) => 1 + if Height(l) > Height(r) then Height(l) else Height(r)
    case _ => 0
  }

  /** What the colours are for: a black root's tree is at most twice as high as the logarithm of its size. */
  lemma Balanced(t: Tree)
    requires RedBlack(t) && NoStub(t) && !Red(t)
    ensures Height(t) <= 2 * Blacks(t) && Pow2(Blacks(t)) <= |Inorder(t)| + 1
  {
    BalancedBelow(t);
  }

  lemma {:induction false} BalancedBelow(t: Tree)
    requires RedBlack(t) && NoStub(t)
    ensures Height(t) <= 2 * Blacks(t) + (if Red(t) then 1 else 0) && Pow2(Blacks(t)) <= |Inorder(t)| + 1
  {
    if t.Fork? {
      BalancedBelow(t.l);
      BalancedBelow(t.r);
    }
  }

  /** A red node may stand in the hole. */
  predicate TakesRed(p: Path) {
    p.Step? && !p.red
  }

  /** Everything around the hole is in order for a subtree with `h` black nodes on every way down. */
  predicate Around(p: Path, h: int) {
    match p
    case Top => true
    case Step(up, _, _, red, o) =>
      RedBlack(o) && Blacks(o) == h && (red ==> !Red(o) && TakesRed(up)) && Around(up, if red then h else h + 1)
  }

  /** A whole tree is red-black with a black root exactly when it is so around and inside any hole. */
  lemma {:induction false} RedBlackPlug(p: Path, t: Tree)
    ensures RedBlack(Plug(p, t)) && !Red(Plug(p, t)) <==>
      RedBlack(t) && Around(p, Blacks(t)) && (Red(t) ==> TakesRed(p))
  {
    if p.Step? { RedBlackPlug(p.up, Pair(p.side, t, p.x, p.red, p.o)); }
  }

  ghost predicate NoStub(t: Tree) {
    match t
    case Leaf => true
    case Stub(_) => false
    case Fork(l, _, _, r) => NoStub(l) && NoStub(r)
  }

  ghost predicate PathNoStub(p: Path) {
    p.Top? || (NoStub(p.o) && PathNoStub(p.up))
  }

  /** The path to node `n`, and what is below it. */
  lemma {:induction false} PathTo(p: Path, t: Tree, n: Node) returns (q: Path, l: Tree, red: bool, r: Tree)
    requires n in Nodes(t) && NoStub(t)
    ensures Plug(q, Fork(l, n, red, r)) == Plug(p, t)
    decreases t
  {
    if t.x == n {
      q, l, red, r := p, t.l, t.red, t.r;
    } else if n in Nodes(t.l) {
      q, l, red, r := PathTo(Step(p, L, t.x, t.red, t.r), t.l, n);
    } else {
      q, l, red, r := PathTo(Step(p, R, t.x, t.red, t.l), t.r, n);
    }
  }

  // The cases of the repair after a deletion, as changes of the path

  /** The two paths have the same nodes, in the same order, around the hole. */
  ghost predicate SameSpan(p: Path, q: Path) {
    Before(q) == Before(p) && After(q) == After(p) && PathNodes(q) == PathNodes(p) && (PathNoStub(p) ==> PathNoStub(q))
  }

  /** The path after the hole's sibling `y` was lifted above its parent `x`. */
  function Lifted(up: Path, side: Side, x: Node, cx: bool, b: Tree, y: Node, cy: bool, c: Tree): Path {
    Step(Step(up, side, y, cy, c), side, x, cx, b)
  }

  lemma LiftSpan(up: Path, side: Side, x: Node, cx: bool, b: Tree, y: Node, cy: bool, c: Tree, dx: bool, dy: bool)
    ensures SameSpan(Step(up, side, x, cx, Pair(side, b, y, cy, c)), Lifted(up, side, x, dx, b, y, dy, c))
  {
    Group4([x], Inorder(b), [y], Inorder(c), After(up));
    Group4(Before(up), Inorder(c), [y], Inorder(b), [x]);
  }

  lemma Group4(a: seq<Node>, b: seq<Node>, c: seq<Node>, d: seq<Node>, e: seq<Node>)
    ensures a + (b + c + d) + e == a + b + (c + d + e)
    ensures a + (b + c + d) + e == (a + b + c) + d + e
  {
  }

  /** Changing what is above the parent keeps the span, if the parts above do. */
  lemma StepSpan(up: Path, vp: Path, side: Side, x: Node, cx: bool, dx: bool, o: Tree, d: Tree)
    requires SameSpan(up, vp) && Inorder(o) == Inorder(d) && Nodes(o) == Nodes(d) && (NoStub(o) ==> NoStub(d))
    ensures SameSpan(Step(up, side, x, cx, o), Step(vp, side, x, dx, d))
  {
  }

  /** Turning the sibling keeps its nodes in order. */
  lemma TurnSpan(side: Side, a: Tree, x: Node, cx: bool, b: Tree, y: Node, cy: bool, c: Tree, dx: bool, dy: bool)
    ensures var t, u := Pair(side, Pair(side, a, x, cx, b), y, cy, c), Pair(side, a, x, dx, Pair(side, b, y, dy, c));
      Inorder(t) == Inorder(u) && Nodes(t) == Nodes(u) && (NoStub(t) ==> NoStub(u))
  {
    if side == L {
      Group5(Inorder(a), [x], Inorder(b), [y], Inorder(c));
      assert Inorder(Fork(a, x, cx, b)) == Inorder(a) + [x] + Inorder(b)
          && Inorder(Fork(b, y, dy, c)) == Inorder(b) + [y] + Inorder(c);
      assert NoStub(Fork(b, y, dy, c)) <==> NoStub(b) && NoStub(c);
      assert NoStub(Fork(a, x, cx, b)) <==> NoStub(a) && NoStub(b);
      assert Nodes(Fork(a, x, cx, b)) == Nodes(a) + {x} + Nodes(b)
          && Nodes(Fork(b, y, dy, c)) == Nodes(b) + {y} + Nodes(c);
    } else {
      Group5(Inorder(c), [y], Inorder(b), [x], Inorder(a));
      assert Inorder(Fork(b, x, cx, a)) == Inorder(b) + [x] + Inorder(a)
          && Inorder(Fork(c, y, dy, b)) == Inorder(c) + [y] + Inorder(b);
      assert NoStub(Fork(b, x, cx, a)) <==> NoStub(b) && NoStub(a);
      assert NoStub(Fork(c, y, dy, b)) <==> NoStub(c) && NoStub(b);
      assert Nodes(Fork(b, x, cx, a)) == Nodes(b) + {x} + Nodes(a)
          && Nodes(Fork(c, y, dy, b)) == Nodes(c) + {y} + Nodes(b);
    }
  }

  lemma Group5(a: seq<Node>, b: seq<Node>, c: seq<Node>, d: seq<Node>, e: seq<Node>)
    ensures (a + b + c) + d + e == a + b + (c + d + e)
  {
  }

  /** The subtrees of a sibling that is a node, on the hole's side and on the far side. */
  function Near(side: Side, o: Tree): Tree
    requires o.Fork?
  {
    if side == L then o.l else o.r
  }

  function Far(side: Side, o: Tree): Tree
    requires o.Fork?
  {
    if side == L then o.r else o.l
  }

  lemma {:induction false} SiblingIsNode(p: Path, h: int)
    requires p.Step? && Around(p, h) && h >= 1 && PathNoStub(p)
    ensures p.o.Fork? && p.o == Pair(p.side, Near(p.side, p.o), p.o.x, p.o.red, Far(p.side, p.o))
    ensures p.o.red ==> !p.red
  {
  }

  /** Case 2: the sibling is red. */
  lemma Case2Around(p: Path, h: int)
    requires p.Step? && Around(p, h) && h >= 1 && PathNoStub(p) && Red(p.o)
    ensures var q := Lifted(p.up, p.side, p.x, true, Near(p.side, p.o), p.o.x, false, Far(p.side, p.o));
      Around(q, h) && SameSpan(p, q)
  {
    SiblingIsNode(p, h);
    LiftSpan(p.up, p.side, p.x, p.red, Near(p.side, p.o), p.o.x, true, Far(p.side, p.o), true, false);
  }

  /** Case 4: a red parent passes its colour to a black sibling with black children. */
  lemma Case4Around(p: Path, h: int)
    requires p.Step? && Around(p, h) && h >= 1 && PathNoStub(p) && p.red && !Red(p.o)
    requires p.o.Fork? ==> !Red(p.o.l) && !Red(p.o.r)
    ensures p.o.Fork?
    ensures var q := Step(p.up, p.side, p.x, false, Fork(p.o.l, p.o.x, true, p.o.r));
      Around(q, h - 1) && SameSpan(p, q)
  {
    SiblingIsNode(p, h);
  }

  /** Case 3: with everything black, the sibling turns red, and the parent is one black node short. */
  lemma Case3Around(p: Path, q: Path, h: int)
    requires p.Step? && Around(p, h) && h >= 1 && PathNoStub(p) && !p.red && !Red(p.o)
    requires p.o.Fork? ==> !Red(p.o.l) && !Red(p.o.r)
    requires Around(q, h) && SameSpan(p.up, q)
    ensures p.o.Fork?
    ensures var w := Step(q, p.side, p.x, false, Fork(p.o.l, p.o.x, true, p.o.r));
      Around(w, h - 1) && SameSpan(p, w)
  {
    SiblingIsNode(p, h);
    StepSpan(p.up, q, p.side, p.x, false, false, p.o, Fork(p.o.l, p.o.x, true, p.o.r));
  }

  /** Case 5: a black sibling whose only red child is the near one is turned, so that the far one is red. */
  lemma Case5Around(p: Path, h: int)
    requires p.Step? && Around(p, h) && h >= 1 && PathNoStub(p) && !Red(p.o)
    requires p.o.Fork? ==> Red(Near(p.side, p.o)) && !Red(Far(p.side, p.o))
    ensures p.o.Fork? && Near(p.side, p.o).Fork?
    ensures var n := Near(p.side, p.o);
      var d := Pair(p.side, Near(p.side, n), n.x, false, Pair(p.side, Far(p.side, n), p.o.x, true, Far(p.side, p.o)));
      && p.o == Pair(p.side, Pair(p.side, Near(p.side, n), n.x, true, Far(p.side, n)), p.o.x, false, Far(p.side, p.o))
      && Around(Step(p.up, p.side, p.x, p.red, d), h) && SameSpan(p, Step(p.up, p.side, p.x, p.red, d))
  {
    SiblingIsNode(p, h);
    var n := Near(p.side, p.o);
    var m := Pair(p.side, Far(p.side, n), p.o.x, true, Far(p.side, p.o));
    assert RedBlack(n) && RedBlack(Far(p.side, p.o)) && Blacks(n) == Blacks(Far(p.side, p.o)) == h - 1;
    assert RedBlack(Near(p.side, n)) && RedBlack(Far(p.side, n)) && RedBlack(m) && Blacks(m) == h - 1;
    TurnSpan(p.side, Near(p.side, n), n.x, true, Far(p.side, n), p.o.x, false, Far(p.side, p.o), false, true);
  }

  /** Case 6: a black sibling with a red far child is lifted, and takes the parent's colour. */
  lemma Case6Around(p: Path, h: int, f: Tree)
    requires p.Step? && Around(p, h) && h >= 1 && PathNoStub(p) && !Red(p.o)
    requires p.o.Fork? ==> Red(Far(p.side, p.o))
    requires p.o.Fork? ==> f == Fork(Far(p.side, p.o).l, Far(p.side, p.o).x, false, Far(p.side, p.o).r)
    ensures p.o.Fork?
    ensures var q := Lifted(p.up, p.side, p.x, false, Near(p.side, p.o), p.o.x, p.red, f);
      Around(q, h - 1) && SameSpan(p, q)
  {
    SiblingIsNode(p, h);
    var far := Far(p.side, p.o);
    assert RedBlack(far) && Blacks(far) == h - 1 && Inorder(f) == Inorder(far) && Nodes(f) == Nodes(far);
    assert NoStub(p.o) ==> NoStub(far) && NoStub(f);
    LiftSpan(p.up, p.side, p.x, p.red, Near(p.side, p.o), p.o.x, false, f, false, p.red);
    StepSpan(p.up, p.up, p.side, p.x, p.red, p.red, p.o, Pair(p.side, Near(p.side, p.o), p.o.x, false, f));
  }
}
