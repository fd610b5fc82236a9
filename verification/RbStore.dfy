/** A red-black tree's memory as a value, and what the pointer operations do to it. */
module RbStore {
  import opened RbShape

  datatype Cell = Cell(left: Node?, right: Node?, parent: Node?, red: bool)

  /** The links and colours of all nodes, the root, and the sentinel. */
  datatype Store = Store(mem: map<Node, Cell>, root: Node, nil: Node)

  function Child(c: Cell, side: Side): Node? {
    if side == L then c.left else c.right
  }

  function SetChild(s: Store, side: Side, x: Node, v: Node?): Store
    requires x in s.mem
  {
    s.(mem := s.mem[x := if side == L then s.mem[x].(left := v) else s.mem[x].(right := v)])
  }

  function SetParent(s: Store, x: Node, v: Node?): Store
    requires x in s.mem
  {
    s.(mem := s.mem[x := s.mem[x].(parent := v)])
  }

  function SetRed(s: Store, x: Node, v: bool): Store
    requires x in s.mem
  {
    s.(mem := s.mem[x := s.mem[x].(red := v)])
  }

  /** A child that is a node, and not the sentinel, gets a new parent. */
  function Adopted(s: Store, child: Node, parent: Node?): Store
    requires child in s.mem
  {
    if child != s.nil then SetParent(s, child, parent) else s
  }

  /** `to` takes the place of `from` below parent `p`, or at the root. */
  function Relinked(s: Store, p: Node?, from: Node, to: Node): Store
    requires p != null ==> p in s.mem
  {
    if p == null then s.(root := to) else SetChild(s, if from == s.mem[p].left then L else R, p, to)
  }

  function Ptr(s: Store, t: Tree): Node {
    match t
    case Leaf => s.nil
    case Stub(x) => x
    case Fork(_, x, _, _) => x
  }

  function Above(p: Path): Node? {
    if p.Top? then null else p.x
  }

  /** The links and colours below pointer `at` are those of `t`. */
  ghost predicate Rep(s: Store, t: Tree, at: Node?, parent: Node?) {
    at == Ptr(s, t) &&
    match t
    case Leaf => true
    case Stub(x) => x != s.nil && x in s.mem && s.mem[x].parent == parent
    case Fork(l, x, red, r) =>
      && x != s.nil && x in s.mem && s.mem[x].parent == parent && s.mem[x].red == red
      && Rep(s, l, s.mem[x].left, x) && Rep(s, r, s.mem[x].right, x)
  }

  /** The links and colours on the path from the root down to pointer `at`, and beside it. */
  ghost predicate Spine(s: Store, p: Path, at: Node?) {
    match p
    case Top => s.root == at
    case Step(up, side, x, red, o) =>
      && x != s.nil && x in s.mem && Child(s.mem[x], side) == at && s.mem[x].red == red && s.mem[x].parent == Above(up)
      && Rep(s, o, Child(s.mem[x], Other(side)), x) && Spine(s, up, x)
  }

  ghost predicate TreeOk(s: Store, t: Tree, parent: Node?) {
    Rep(s, t, Ptr(s, t), parent) && Apart(t) && s.nil !in Nodes(t)
  }

  /** Everything around the hole is in place, and pointer `at` is in the hole. */
  ghost predicate PathOk(s: Store, p: Path, at: Node?) {
    Spine(s, p, at) && PathApart(p) && s.nil !in PathNodes(p) && s.nil in s.mem && !s.mem[s.nil].red
  }

  /** The tree in memory is `t` in the hole of `p`. The sentinel is black. */
  ghost predicate Place(s: Store, p: Path, t: Tree) {
    PathOk(s, p, Ptr(s, t)) && TreeOk(s, t, Above(p)) && Nodes(t) !! PathNodes(p)
  }

  /** The two stores agree on the nodes of `xs`. */
  ghost predicate Agree(s: Store, s': Store, xs: set<Node>) {
    s'.nil == s.nil && forall x {:trigger x in xs} :: x in xs && x in s.mem ==> x in s'.mem && s'.mem[x] == s.mem[x]
  }

  lemma {:induction false} RepFrame(s: Store, s': Store, t: Tree, at: Node?, parent: Node?)
    requires Rep(s, t, at, parent) && Agree(s, s', Nodes(t))
    ensures Rep(s', t, at, parent)
  {
    match t
    case Leaf =>
    case Stub(x) => assert x in Nodes(t);
    case Fork(l, x, _, r) =>
      assert x in Nodes(t) && Nodes(l) <= Nodes(t) && Nodes(r) <= Nodes(t);
      RepFrame(s, s', l, s.mem[x].left, x);
      RepFrame(s, s', r, s.mem[x].right, x);
  }

  lemma {:induction false} SpineFrame(s: Store, s': Store, p: Path, at: Node?)
    requires Spine(s, p, at) && s'.root == s.root && Agree(s, s', PathNodes(p))
    ensures Spine(s', p, at)
  {
    match p
    case Top =>
    case Step(up, side, x, _, o) =>
      assert x in PathNodes(p) && Nodes(o) <= PathNodes(p) && PathNodes(up) <= PathNodes(p);
      RepFrame(s, s', o, Child(s.mem[x], Other(side)), x);
      SpineFrame(s, s', up, x);
  }

  /** A subtree is its top and the two subtrees below. */
  lemma Split(s: Store, side: Side, t: Tree, x: Node, red: bool, o: Tree, parent: Node?)
    requires TreeOk(s, Pair(side, t, x, red, o), parent)
    ensures x in s.mem && x != s.nil && s.mem[x].parent == parent && s.mem[x].red == red
    ensures Child(s.mem[x], side) == Ptr(s, t) && Child(s.mem[x], Other(side)) == Ptr(s, o)
    ensures TreeOk(s, t, x) && TreeOk(s, o, x)
    ensures x !in Nodes(t) && x !in Nodes(o) && Nodes(t) !! Nodes(o)
    ensures Nodes(Pair(side, t, x, red, o)) == {x} + Nodes(t) + Nodes(o)
  {
    assert Rep(s, t, Child(s.mem[x], side), x) && Rep(s, o, Child(s.mem[x], Other(side)), x);
  }

  /** A node in place, with both its subtrees in place; seen from the node, or from the subtree on either side. */
  lemma Open(s: Store, p: Path, side: Side, t: Tree, x: Node, red: bool, o: Tree)
    requires Place(s, p, Pair(side, t, x, red, o))
    ensures Place(s, Step(p, side, x, red, o), t)
    ensures x in s.mem && x != s.nil && s.mem[x].parent == Above(p) && s.mem[x].red == red
    ensures Child(s.mem[x], side) == Ptr(s, t) && Child(s.mem[x], Other(side)) == Ptr(s, o)
  {
    assert Rep(s, t, Child(s.mem[x], side), x) && Rep(s, o, Child(s.mem[x], Other(side)), x);
  }

  lemma Close(s: Store, p: Path, t: Tree)
    requires Place(s, p, t) && p.Step?
    ensures Place(s, p.up, Pair(p.side, t, p.x, p.red, p.o))
  {
    assert Rep(s, t, Child(s.mem[p.x], p.side), p.x);
  }

  lemma {:induction false} ZipUp(s: Store, p: Path, t: Tree)
    requires Place(s, p, t)
    ensures Place(s, Top, Plug(p, t))
  {
    if p.Step? {
      Close(s, p, t);
      ZipUp(s, p.up, Pair(p.side, t, p.x, p.red, p.o));
    }
  }

  lemma {:induction false} ZipDown(s: Store, p: Path, t: Tree)
    requires Place(s, Top, Plug(p, t))
    ensures Place(s, p, t)
  {
    if p.Step? {
      ZipDown(s, p.up, Pair(p.side, t, p.x, p.red, p.o));
      Open(s, p.up, p.side, t, p.x, p.red, p.o);
    }
  }

  /** Relinking puts another node in the hole. */
  lemma RelinkSpine(s: Store, p: Path, from: Node, to: Node)
    requires Spine(s, p, from) && PathApart(p) && from !in PathNodes(p) && from != s.nil
    requires Above(p) != null ==> Above(p) in s.mem
    ensures Spine(Relinked(s, Above(p), from, to), p, to)
  {
    var s' := Relinked(s, Above(p), from, to);
    if p.Step? {
      RepFrame(s, s', p.o, Child(s.mem[p.x], Other(p.side)), p.x);
      SpineFrame(s, s', p.up, p.x);
      TopIsNode(s, p.o);
    }
  }

  lemma TopIsNode(s: Store, t: Tree)
    ensures Ptr(s, t) == s.nil || Ptr(s, t) in Nodes(t)
  {
  }

  lemma AdoptRep(s: Store, t: Tree, at: Node, was: Node?, parent: Node?)
    requires Rep(s, t, at, was) && Apart(t) && s.nil !in Nodes(t) && at in s.mem
    ensures Rep(Adopted(s, at, parent), t, at, parent)
  {
    var s' := Adopted(s, at, parent);
    if t.Fork? {
      RepFrame(s, s', t.l, s.mem[t.x].left, t.x);
      RepFrame(s, s', t.r, s.mem[t.x].right, t.x);
    }
  }

  // Colours

  lemma PaintPlace(s: Store, p: Path, l: Tree, x: Node, red: bool, r: Tree, v: bool)
    requires Place(s, p, Fork(l, x, red, r))
    ensures x in s.mem && Place(SetRed(s, x, v), p, Fork(l, x, v, r))
  {
    var s' := SetRed(s, x, v);
    Open(s, p, L, l, x, red, r);
    RepFrame(s, s', l, s.mem[x].left, x);
    RepFrame(s, s', r, s.mem[x].right, x);
    SpineFrame(s, s', p, x);
  }

  // Rotations

  /** The first part of a rotation towards `side`: `x` goes below `y`, and takes over the subtree `b` between them. */
  function Turned(s: Store, side: Side, x: Node, y: Node, b: Node): Store
    requires x in s.mem && y in s.mem && b in s.mem
  {
    Adopted(SetParent(SetChild(SetChild(s, Other(side), x, b), side, y, x), x, y), b, x)
  }

  /** The last part of a rotation: `y` takes the place of `x`, below `p` or at the root. */
  function Raised(s: Store, x: Node, y: Node, p: Node?): Store
    requires y in s.mem && (p != null ==> p in s.mem)
  {
    SetParent(Relinked(s, p, x, y), y, p)
  }

  /** The three subtrees are kept when their tops are turned. */
  lemma TurnKeeps(s: Store, s': Store, side: Side, a: Tree, x: Node, b: Tree, y: Node, c: Tree)
    requires x in s.mem && y in s.mem && Ptr(s, b) in s.mem && x != s.nil && y != s.nil && x != y
    requires TreeOk(s, a, x) && TreeOk(s, b, y) && TreeOk(s, c, y)
    requires {x, y} !! Nodes(a) && {x, y} !! Nodes(b) && {x, y} !! Nodes(c)
    requires Nodes(a) !! Nodes(b) && Nodes(b) !! Nodes(c)
    requires s' == Turned(s, side, x, y, Ptr(s, b))
    ensures TreeOk(s', a, x) && TreeOk(s', b, x) && TreeOk(s', c, y)
    ensures x in s'.mem && s'.mem[x].parent == y && s'.mem[x].red == s.mem[x].red
    ensures Child(s'.mem[x], side) == Child(s.mem[x], side) && Child(s'.mem[x], Other(side)) == Ptr(s, b)
    ensures y in s'.mem && Child(s'.mem[y], side) == x && Child(s'.mem[y], Other(side)) == Child(s.mem[y], Other(side))
    ensures s'.mem[y].red == s.mem[y].red && s'.nil == s.nil
  {
    var s1 := SetParent(SetChild(SetChild(s, Other(side), x, Ptr(s, b)), side, y, x), x, y);
    TopIsNode(s, b);
    RepFrame(s, s1, b, Ptr(s, b), y);
    AdoptRep(s1, b, Ptr(s, b), y, x);
    RepFrame(s, s', a, Ptr(s, a), x);
    RepFrame(s, s', c, Ptr(s, c), y);
  }

  /** A node with two subtrees in place below it, in the hole of a path in place. */
  lemma Build(s: Store, p: Path, side: Side, t: Tree, y: Node, red: bool, o: Tree)
    requires PathOk(s, p, y) && y != s.nil && y !in PathNodes(p)
    requires y in s.mem && s.mem[y].parent == Above(p) && s.mem[y].red == red
    requires Child(s.mem[y], side) == Ptr(s, t) && Child(s.mem[y], Other(side)) == Ptr(s, o)
    requires TreeOk(s, t, y) && TreeOk(s, o, y) && y !in Nodes(t) && y !in Nodes(o)
    requires Nodes(t) !! Nodes(o) && Nodes(t) !! PathNodes(p) && Nodes(o) !! PathNodes(p)
    ensures Place(s, p, Pair(side, t, y, red, o))
  {
  }

  lemma Raise(s: Store, p: Path, x: Node, y: Node, side: Side, t: Tree, red: bool, o: Tree)
    requires PathOk(s, p, x) && x !in PathNodes(p) && x != s.nil
    requires y in s.mem && y != s.nil && (Above(p) != null ==> Above(p) in s.mem)
    requires Child(s.mem[y], side) == Ptr(s, t) && Child(s.mem[y], Other(side)) == Ptr(s, o) && s.mem[y].red == red
    requires TreeOk(s, t, y) && TreeOk(s, o, y) && y !in Nodes(t) && y !in Nodes(o) && y !in PathNodes(p)
    requires Nodes(t) !! Nodes(o) && Nodes(t) !! PathNodes(p) && Nodes(o) !! PathNodes(p)
    ensures Place(Raised(s, x, y, Above(p)), p, Pair(side, t, y, red, o))
  {
    var s1, s2 := Relinked(s, Above(p), x, y), Raised(s, x, y, Above(p));
    AboveOnPath(p);
    RelinkSpine(s, p, x, y);
    SpineFrame(s1, s2, p, y);
    RepFrame(s, s2, t, Ptr(s, t), y);
    RepFrame(s, s2, o, Ptr(s, o), y);
    Build(s2, p, side, t, y, red, o);
  }

  lemma AboveOnPath(p: Path)
    ensures p.Step? ==> p.x in PathNodes(p)
  {
  }

  /** The parts of a subtree that is about to be rotated. */
  lemma RotateParts(s: Store, up: Path, side: Side, a: Tree, x: Node, cx: bool, b: Tree, y: Node, cy: bool, c: Tree)
    requires var w := Pair(side, a, x, cx, Pair(side, b, y, cy, c));
      PathOk(s, up, x) && TreeOk(s, w, Above(up)) && Nodes(w) !! PathNodes(up)
    ensures x in s.mem && x != s.nil && s.mem[x].parent == Above(up) && s.mem[x].red == cx
    ensures Above(up) != null ==> Above(up) in s.mem
    ensures Child(s.mem[x], side) == Ptr(s, a) && Child(s.mem[x], Other(side)) == y
    ensures y in s.mem && y != s.nil && s.mem[y].red == cy && x != y
    ensures Child(s.mem[y], side) == Ptr(s, b) && Child(s.mem[y], Other(side)) == Ptr(s, c) && Ptr(s, b) in s.mem
    ensures PathOk(s, up, x) && TreeOk(s, a, x) && TreeOk(s, b, y) && TreeOk(s, c, y)
    ensures {x, y} !! Nodes(a) && {x, y} !! Nodes(b) && {x, y} !! Nodes(c) && {x, y} !! PathNodes(up)
    ensures Nodes(a) !! Nodes(b) && Nodes(a) !! Nodes(c) && Nodes(b) !! Nodes(c)
    ensures Nodes(a) !! PathNodes(up) && Nodes(b) !! PathNodes(up) && Nodes(c) !! PathNodes(up)
  {
    var t := Pair(side, b, y, cy, c);
    if side == L {
      Split(s, R, t, x, cx, a, Above(up));
      Split(s, L, b, y, cy, c, x);
    } else {
      Split(s, L, t, x, cx, a, Above(up));
      Split(s, R, b, y, cy, c, x);
    }
    TopInStore(s, b, y);
    AboveInStore(s, up, x);
  }

  lemma TopInStore(s: Store, t: Tree, parent: Node?)
    requires TreeOk(s, t, parent) && s.nil in s.mem
    ensures Ptr(s, t) in s.mem
  {
  }

  lemma AboveInStore(s: Store, p: Path, at: Node?)
    requires Spine(s, p, at)
    ensures Above(p) != null ==> Above(p) in s.mem
  {
  }

  /** A rotation of `x` towards `side` lifts its child `y` from the other side. */
  lemma Rotate(s: Store, up: Path, side: Side, a: Tree, x: Node, cx: bool, b: Tree, y: Node, cy: bool, c: Tree)
    requires Place(s, up, Pair(side, a, x, cx, Pair(side, b, y, cy, c)))
    ensures x in s.mem && Child(s.mem[x], Other(side)) == y && y in s.mem && Child(s.mem[y], side) == Ptr(s, b)
    ensures x != y
    ensures Ptr(s, b) in s.mem && s.mem[x].parent == Above(up) && (Above(up) != null ==> Above(up) in s.mem)
    ensures Place(Raised(Turned(s, side, x, y, Ptr(s, b)), x, y, Above(up)), up,
        Pair(side, Pair(side, a, x, cx, b), y, cy, c))
  {
    RotateParts(s, up, side, a, x, cx, b, y, cy, c);
    RotateFrom(s, up, side, a, x, cx, b, y, cy, c);
  }

  lemma RotateFrom(s: Store, up: Path, side: Side, a: Tree, x: Node, cx: bool, b: Tree, y: Node, cy: bool, c: Tree)
    requires x in s.mem && x != s.nil && s.mem[x].red == cx && (Above(up) != null ==> Above(up) in s.mem)
    requires Child(s.mem[x], side) == Ptr(s, a)
    requires y in s.mem && y != s.nil && s.mem[y].red == cy && x != y
    requires Child(s.mem[y], side) == Ptr(s, b) && Child(s.mem[y], Other(side)) == Ptr(s, c) && Ptr(s, b) in s.mem
    requires PathOk(s, up, x) && TreeOk(s, a, x) && TreeOk(s, b, y) && TreeOk(s, c, y)
    requires {x, y} !! Nodes(a) && {x, y} !! Nodes(b) && {x, y} !! Nodes(c) && {x, y} !! PathNodes(up)
    requires Nodes(a) !! Nodes(b) && Nodes(a) !! Nodes(c) && Nodes(b) !! Nodes(c)
    requires Nodes(a) !! PathNodes(up) && Nodes(b) !! PathNodes(up) && Nodes(c) !! PathNodes(up)
    ensures Place(Raised(Turned(s, side, x, y, Ptr(s, b)), x, y, Above(up)), up,
        Pair(side, Pair(side, a, x, cx, b), y, cy, c))
  {
    var s2 := Turned(s, side, x, y, Ptr(s, b));
    TurnKeeps(s, s2, side, a, x, b, y, c);
    TurnPath(s, s2, up, side, x, b, y);
    TurnTop(s2, side, a, x, cx, b, y, c);
    Raise(s2, up, x, y, side, Pair(side, a, x, cx, b), cy, c);
  }

  /** Turning does not reach the path above. */
  lemma TurnPath(s: Store, s': Store, up: Path, side: Side, x: Node, b: Tree, y: Node)
    requires x in s.mem && y in s.mem && Ptr(s, b) in s.mem && x != s.nil && y != s.nil && PathOk(s, up, x)
    requires {x, y} !! PathNodes(up) && Nodes(b) !! PathNodes(up) && s' == Turned(s, side, x, y, Ptr(s, b))
    ensures PathOk(s', up, x) && s'.nil == s.nil
    ensures Above(up) != null ==> Above(up) in s'.mem
  {
    TopIsNode(s, b);
    SpineFrame(s, s', up, x);
    AboveInStore(s', up, x);
  }

  lemma TurnTop(s: Store, side: Side, a: Tree, x: Node, cx: bool, b: Tree, y: Node, c: Tree)
    requires x in s.mem && x != s.nil && s.mem[x].parent == y && s.mem[x].red == cx
    requires Child(s.mem[x], side) == Ptr(s, a) && Child(s.mem[x], Other(side)) == Ptr(s, b)
    requires TreeOk(s, a, x) && TreeOk(s, b, x)
    requires x != y && {x, y} !! Nodes(a) && {x, y} !! Nodes(b) && {x, y} !! Nodes(c)
    requires Nodes(a) !! Nodes(b) && Nodes(a) !! Nodes(c) && Nodes(b) !! Nodes(c)
    ensures var t := Pair(side, a, x, cx, b);
      && TreeOk(s, t, y) && Nodes(t) == {x} + Nodes(a) + Nodes(b) && y !in Nodes(t) && Nodes(t) !! Nodes(c)
          && Ptr(s, t) == x
  {
    Join(s, side, a, x, cx, b, y);
  }

  lemma Join(s: Store, side: Side, t: Tree, x: Node, red: bool, o: Tree, parent: Node?)
    requires x in s.mem && x != s.nil && s.mem[x].parent == parent && s.mem[x].red == red
    requires Child(s.mem[x], side) == Ptr(s, t) && Child(s.mem[x], Other(side)) == Ptr(s, o)
    requires TreeOk(s, t, x) && TreeOk(s, o, x)
    requires x !in Nodes(t) && x !in Nodes(o) && Nodes(t) !! Nodes(o)
    ensures TreeOk(s, Pair(side, t, x, red, o), parent)
    ensures Nodes(Pair(side, t, x, red, o)) == {x} + Nodes(t) + Nodes(o)
  {
  }
}
