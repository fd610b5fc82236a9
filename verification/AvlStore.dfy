/** An AVL tree's memory as a value. */
module AvlStore {
  import opened AvlShape

  datatype Cell = Cell(left: Node?, right: Node?, parent: Node?, height: nat)

  type Store = map<Node, Cell>

  datatype Side = L | R

  function Other(side: Side): Side {
    if side == L then R else L
  }

  function Child(c: Cell, side: Side): Node? {
    if side == L then c.left else c.right
  }

  function SetChild(s: Store, side: Side, x: Node, v: Node?): Store
    requires x in s
  {
    s[x := if side == L then s[x].(left := v) else s[x].(right := v)]
  }

  function SetParent(s: Store, x: Node?, v: Node?): Store
    requires x != null ==> x in s
  {
    if x == null then s else s[x := s[x].(parent := v)]
  }

  function SetHeight(s: Store, x: Node, v: nat): Store
    requires x in s
  {
    s[x := s[x].(height := v)]
  }

  function Top(t: Tree): Node? {
    if t.Leaf? then null else t.x
  }

  /** The links and heights of the nodes of `t` are in memory; the link up from its top is not looked at. */
  ghost predicate Loose(s: Store, t: Tree, at: Node?) {
    match t
    case Leaf => at == null
    case Fork(l, x, h, r) =>
      at == x && x in s && s[x].height == h && Rep(s, l, s[x].left, x) && Rep(s, r, s[x].right, x)
  }

  /** The same, with the link up from the top. */
  ghost predicate Rep(s: Store, t: Tree, at: Node?, parent: Node?) {
    match t
    case Leaf => at == null
    case Fork(l, x, h, r) =>
      at == x && x in s && s[x].height == h && s[x].parent == parent && Rep(s, l, s[x].left, x)
          && Rep(s, r, s[x].right, x)
  }

  ghost predicate Agree(s: Store, s': Store, xs: set<Node>) {
    forall x {:trigger x in xs} :: x in xs && x in s ==> x in s' && s'[x] == s[x]
  }

  /** The two stores have the same nodes, and only those in `xs` may differ. */
  ghost predicate SameOff(s: Store, s': Store, xs: set<Node>) {
    s'.Keys == s.Keys && forall x {:trigger s'[x]} :: x in s && x !in xs ==> s'[x] == s[x]
  }

  lemma OffThen(s: Store, s1: Store, s2: Store, xs: set<Node>)
    requires SameOff(s, s1, xs) && SameOff(s1, s2, xs)
    ensures SameOff(s, s2, xs)
  {
    forall x | x in s && x !in xs ensures s2[x] == s[x] { assert s1[x] == s[x]; }
  }

  lemma {:induction false} RepFrame(s: Store, s': Store, t: Tree, at: Node?, parent: Node?)
    requires Rep(s, t, at, parent) && Agree(s, s', Nodes(t))
    ensures Rep(s', t, at, parent)
  {
    if t.Fork? {
      assert t.x in Nodes(t) && Nodes(t.l) <= Nodes(t) && Nodes(t.r) <= Nodes(t);
      RepFrame(s, s', t.l, s[t.x].left, t.x);
      RepFrame(s, s', t.r, s[t.x].right, t.x);
    }
  }

  /** A subtree gets a parent. */
  lemma Adopt(s: Store, t: Tree, at: Node?, parent: Node?)
    requires Loose(s, t, at) && Apart(t)
    ensures (at != null ==> at in s) && Rep(SetParent(s, at, parent), t, at, parent)
    ensures SameOff(s, SetParent(s, at, parent), Nodes(t))
  {
    if t.Fork? {
      var s' := SetParent(s, at, parent);
      RepFrame(s, s', t.l, s[t.x].left, t.x);
      RepFrame(s, s', t.r, s[t.x].right, t.x);
    }
  }

  lemma RepLoose(s: Store, t: Tree, at: Node?, parent: Node?)
    requires Rep(s, t, at, parent)
    ensures Loose(s, t, at)
  {
  }

  lemma TopNode(t: Tree)
    ensures Top(t) == null || Top(t) in Nodes(t)
  {
  }

  /** A node with `a` on side `side` and `b` on the other. */
  function Pair(side: Side, a: Tree, x: Node, h: nat, b: Tree): Tree {
    if side == L then Fork(a, x, h, b) else Fork(b, x, h, a)
  }

  function Height(a: Tree, b: Tree): nat {
    1 + Max(H(a), H(b))
  }

  /** Two subtrees below a node whose height is set. */
  lemma Join(s: Store, side: Side, a: Tree, x: Node, h: nat, b: Tree)
    requires x in s && s[x].height == h && Rep(s, a, Child(s[x], side), x) && Rep(s, b, Child(s[x], Other(side)), x)
    ensures Loose(s, Pair(side, a, x, h, b), x)
  {
  }

  lemma Split(s: Store, side: Side, a: Tree, x: Node, h: nat, b: Tree, at: Node?)
    requires Loose(s, Pair(side, a, x, h, b), at) && Apart(Pair(side, a, x, h, b))
    ensures at == x && x in s && s[x].height == h && Rep(s, a, Child(s[x], side), x)
    ensures Rep(s, b, Child(s[x], Other(side)), x)
    ensures x !in Nodes(a) && x !in Nodes(b) && Nodes(a) !! Nodes(b) && Apart(a) && Apart(b)
    ensures Nodes(Pair(side, a, x, h, b)) == {x} + Nodes(a) + Nodes(b)
    ensures Child(s[x], side) == Top(a) && Child(s[x], Other(side)) == Top(b)
  {
  }

  /** A rotation can be done: the link up from `y` need not be in place. */
  ghost predicate Turnable(s: Store, side: Side, a: Tree, x: Node, b: Tree, y: Node, hy: nat, c: Tree) {
    x in s && Rep(s, a, Child(s[x], side), x) && Child(s[x], Other(side)) == y && Loose(s, Pair(side, b, y, hy, c), y)
  }

  lemma LooseTurnable(s: Store, side: Side, a: Tree, x: Node, hx: nat, b: Tree, y: Node, hy: nat, c: Tree)
    requires Loose(s, Pair(side, a, x, hx, Pair(side, b, y, hy, c)), x)
    ensures Turnable(s, side, a, x, b, y, hy, c)
  {
  }

  // A rotation of `x` towards `side` lifts its child `y` from the other side; `b` is between them

  function Relinked(s: Store, side: Side, x: Node, y: Node, b: Node?): Store
    requires x in s && y in s && (b != null ==> b in s)
  {
    SetParent(SetParent(SetChild(SetParent(SetChild(s, Other(side), x, b), b, x), side, y, x), x, y), y, null)
  }

  lemma OffAgree(s: Store, s': Store, xs: set<Node>, ys: set<Node>)
    requires SameOff(s, s', xs) && xs !! ys
    ensures Agree(s, s', ys)
  {
  }

  /** What the relinking itself writes. */
  lemma RelinkedCells(s: Store, side: Side, x: Node, y: Node, b: Node?)
    requires x in s && y in s && x != y && (b != null ==> b in s && b != x && b != y)
    ensures var s' := Relinked(s, side, x, y, b);
      && x in s' && y in s' && s'[y].parent == null && s'[x].parent == y
      && Child(s'[x], side) == Child(s[x], side) && Child(s'[x], Other(side)) == b
      && Child(s'[y], side) == x && Child(s'[y], Other(side)) == Child(s[y], Other(side))
      && SameOff(SetParent(s, b, x), s', {x, y})
  {
  }

  lemma RelinkedReps(s: Store, side: Side, a: Tree, x: Node, b: Tree, y: Node, c: Tree)
    requires x in s && y in s && x != y && Rep(s, a, Top(a), x) && Rep(s, b, Top(b), y) && Rep(s, c, Top(c), y)
    requires {x, y} !! Nodes(a) && {x, y} !! Nodes(b) && {x, y} !! Nodes(c)
    requires Nodes(a) !! Nodes(b) && Nodes(b) !! Nodes(c) && Apart(b)
    ensures Top(b) != null ==> Top(b) in s
    ensures var s' := Relinked(s, side, x, y, Top(b));
        Rep(s', a, Top(a), x) && Rep(s', b, Top(b), x) && Rep(s', c, Top(c), y)
    ensures SameOff(s, Relinked(s, side, x, y, Top(b)), {x, y} + Nodes(b))
  {
    TopNode(b);
    RepLoose(s, b, Top(b), y);
    Adopt(s, b, Top(b), x);
    RelinkedCells(s, side, x, y, Top(b));
    var s1, s' := SetParent(s, Top(b), x), Relinked(s, side, x, y, Top(b));
    hide Relinked, Rep;
    RelinkedFrames(s, s1, s', a, x, b, y, c);
  }

  lemma RelinkedFrames(s: Store, s1: Store, s': Store, a: Tree, x: Node, b: Tree, y: Node, c: Tree)
    requires SameOff(s, s1, Nodes(b)) && SameOff(s1, s', {x, y})
    requires Rep(s, a, Top(a), x) && Rep(s1, b, Top(b), x) && Rep(s, c, Top(c), y)
    requires {x, y} !! Nodes(a) && {x, y} !! Nodes(b) && {x, y} !! Nodes(c) && Nodes(a) !! Nodes(b)
    requires Nodes(b) !! Nodes(c)
    ensures Rep(s', a, Top(a), x) && Rep(s', b, Top(b), x) && Rep(s', c, Top(c), y) && SameOff(s, s', {x, y} + Nodes(b))
  {
    hide Rep;
    OffMore(s, s1, Nodes(b), {x, y} + Nodes(b));
    OffMore(s1, s', {x, y}, {x, y} + Nodes(b));
    OffThen(s, s1, s', {x, y} + Nodes(b));
    OffAgree(s1, s', {x, y}, Nodes(b));
    OffAgree(s, s', {x, y} + Nodes(b), Nodes(a));
    OffAgree(s, s', {x, y} + Nodes(b), Nodes(c));
    RepFrame(s1, s', b, Top(b), x);
    RepFrame(s, s', a, Top(a), x);
    RepFrame(s, s', c, Top(c), y);
  }

  lemma OffMore(s: Store, s': Store, xs: set<Node>, ys: set<Node>)
    requires SameOff(s, s', xs) && xs <= ys
    ensures SameOff(s, s', ys)
  {
  }

  lemma RelinkedParts(s: Store, side: Side, a: Tree, x: Node, hx: nat, b: Tree, y: Node, hy: nat, c: Tree)
    requires Turnable(s, side, a, x, b, y, hy, c) && Apart(Pair(side, a, x, hx, Pair(side, b, y, hy, c)))
    ensures x in s && y in s && x != y && (Top(b) != null ==> Top(b) in s)
    ensures Child(s[x], Other(side)) == y && Child(s[y], side) == Top(b)
    ensures var s' := Relinked(s, side, x, y, Top(b));
      && x in s' && y in s' && s'[y].parent == null && s'[x].parent == y && s'.Keys == s.Keys
      && Child(s'[x], side) == Top(a) && Child(s'[x], Other(side)) == Top(b) && Child(s'[y], side) == x
          && Child(s'[y], Other(side)) == Top(c)
      && Rep(s', a, Top(a), x) && Rep(s', b, Top(b), x) && Rep(s', c, Top(c), y)
    ensures SameOff(s, Relinked(s, side, x, y, Top(b)), {x, y} + Nodes(b))
  {
    Parts(s, side, a, x, hx, b, y, hy, c);
    TopNode(b);
    hide Relinked, Rep, Loose, Apart;
    RelinkedReps(s, side, a, x, b, y, c);
    RelinkedCells(s, side, x, y, Top(b));
  }

  lemma Parts(s: Store, side: Side, a: Tree, x: Node, hx: nat, b: Tree, y: Node, hy: nat, c: Tree)
    requires Turnable(s, side, a, x, b, y, hy, c) && Apart(Pair(side, a, x, hx, Pair(side, b, y, hy, c)))
    ensures x in s && y in s && x != y && Child(s[x], side) == Top(a) && Child(s[x], Other(side)) == y
    ensures Child(s[y], side) == Top(b) && Child(s[y], Other(side)) == Top(c)
    ensures Rep(s, a, Top(a), x) && Rep(s, b, Top(b), y) && Rep(s, c, Top(c), y)
    ensures {x, y} !! Nodes(a) && {x, y} !! Nodes(b) && {x, y} !! Nodes(c) && Nodes(a) !! Nodes(b)
    ensures Nodes(b) !! Nodes(c)
    ensures Apart(b) && (Top(b) != null ==> Top(b) in s)
  {
    var t := Pair(side, b, y, hy, c);
    PairApart(side, a, x, hx, t);
    hide Rep, Loose, Apart, Nodes;
    TopIs(s, a, Child(s[x], side), x);
    Split(s, side, b, y, hy, c, y);
    TopIn(s, b, y);
  }

  lemma PairApart(side: Side, a: Tree, x: Node, h: nat, b: Tree)
    requires Apart(Pair(side, a, x, h, b))
    ensures x !in Nodes(a) && x !in Nodes(b) && Nodes(a) !! Nodes(b) && Apart(a) && Apart(b)
    ensures Nodes(Pair(side, a, x, h, b)) == {x} + Nodes(a) + Nodes(b)
  {
  }

  lemma TopIs(s: Store, t: Tree, at: Node?, parent: Node?)
    requires Rep(s, t, at, parent)
    ensures at == Top(t)
  {
  }

  lemma TopIn(s: Store, t: Tree, parent: Node?)
    requires Rep(s, t, Top(t), parent)
    ensures Top(t) != null ==> Top(t) in s
  {
  }

  /** The memory after a rotation, heights included. */
  function Rotated(s: Store, side: Side, x: Node, y: Node, b: Node?, hx: nat, hy: nat): Store
    requires x in s && y in s && (b != null ==> b in s)
  {
    SetHeight(SetHeight(Relinked(s, side, x, y, b), x, hx), y, hy)
  }

  lemma Rotate(s: Store, side: Side, a: Tree, x: Node, hx: nat, b: Tree, y: Node, hy: nat, c: Tree)
    requires Turnable(s, side, a, x, b, y, hy, c) && Apart(Pair(side, a, x, hx, Pair(side, b, y, hy, c)))
    ensures x in s && y in s && (Top(b) != null ==> Top(b) in s)
    ensures var h1 := Height(a, b);
      var h2 := 1 + Max(h1, H(c));
      var s', u := Rotated(s, side, x, y, Top(b), h1, h2), Pair(side, Pair(side, a, x, h1, b), y, h2, c);
      Loose(s', u, y) && s'[y].parent == null && SameOff(s, s', {x, y} + Nodes(b))
  {
    RelinkedParts(s, side, a, x, hx, b, y, hy, c);
    Parts(s, side, a, x, hx, b, y, hy, c);
    var h1 := Height(a, b);
    var h2 := 1 + Max(h1, H(c));
    var s1, s' := Relinked(s, side, x, y, Top(b)), Rotated(s, side, x, y, Top(b), h1, h2);
    hide Relinked, Rep, Loose;
    RepFrame(s1, s', a, Top(a), x);
    RepFrame(s1, s', b, Top(b), x);
    RepFrame(s1, s', c, Top(c), y);
    JoinTwo(s', side, a, x, h1, b, y, h2, c);
  }

  lemma JoinTwo(s: Store, side: Side, a: Tree, x: Node, hx: nat, b: Tree, y: Node, hy: nat, c: Tree)
    requires x in s && y in s && s[x].height == hx && s[y].height == hy && s[x].parent == y
    requires Child(s[x], side) == Top(a) && Child(s[x], Other(side)) == Top(b) && Child(s[y], side) == x
    requires Child(s[y], Other(side)) == Top(c)
    requires Rep(s, a, Top(a), x) && Rep(s, b, Top(b), x) && Rep(s, c, Top(c), y)
    ensures Loose(s, Pair(side, Pair(side, a, x, hx, b), y, hy, c), y)
  {
    assert Rep(s, Pair(side, a, x, hx, b), x, y);
  }
}
