/** Deletion from a red-black tree, as pointer operations on its nodes. */
module RedBlackTree {
  import opened RbShape
  import opened RbStore
  import opened RbFocus
  import opened RbRepair
  import opened RbRemoval
  import opened Sequences

  class RbTree {
    var root: Node
    const sentinel: Node
    /** The nodes of the tree and the sentinel; while a node is being deleted, also its stand-in. */
    ghost var nodes: set<Node>

    /** The memory at this moment. */
    ghost function Now(): Store
      reads this, nodes
    {
      Store(map x | x in nodes :: Cell(x.left, x.right, x.parent, x.red), root, sentinel)
    }

    /** The empty tree. */
    constructor (nil: Node)
      modifies nil
      ensures root == sentinel == nil && nodes == {nil} && Valid(Leaf)
    {
      root, sentinel, nodes := nil, nil, {nil};
      new;
      nil.red := false;
    }

    // Rotations

    /** A child that is not the sentinel gets a new parent. */
    method AdoptChild(child: Node, parent: Node?)
      requires child in nodes
      modifies nodes`parent
      ensures Now() == Adopted(old(Now()), child, parent)
    {
      if child != sentinel { child.parent := parent; }
      assert Now().mem == Adopted(old(Now()), child, parent).mem;
    }

    /** `to` takes the place of `from` below `p`, or at the root. */
    method Relink(p: Node?, from: Node, to: Node)
      requires p != null ==> p in nodes
      modifies this`root, nodes`left, nodes`right
      ensures Now() == Relinked(old(Now()), p, from, to)
    {
      if p != null {
        if from == p.left { p.left := to; } else { p.right := to; }
        assert Now().mem == Relinked(old(Now()), p, from, to).mem;
      } else {
        root := to;
      }
    }

    method PutChild(side: Side, x: Node, v: Node?)
      requires x in nodes
      modifies nodes`left, nodes`right
      ensures Now() == SetChild(old(Now()), side, x, v)
    {
      if side == L { x.left := v; } else { x.right := v; }
      assert Now().mem == SetChild(old(Now()), side, x, v).mem;
    }

    method PutParent(x: Node, v: Node?)
      requires x in nodes
      modifies nodes`parent
      ensures Now() == SetParent(old(Now()), x, v)
    {
      x.parent := v;
      assert Now().mem == SetParent(old(Now()), x, v).mem;
    }

    method Paint(x: Node, v: bool)
      requires x in nodes
      modifies nodes`red
      ensures Now() == SetRed(old(Now()), x, v)
    {
      x.red := v;
      assert Now().mem == SetRed(old(Now()), x, v).mem;
    }

    method LeftRotate(node: Node, ghost y: Node, ghost b: Node)
      requires CanRotate(Now(), L, node, y, b)
      modifies this`root, nodes`left, nodes`right, nodes`parent
      ensures Now() == Rotated(old(Now()), L, node, y, b)
    {
      ghost var s := Now();
      assert s.mem[node].right == node.right && s.mem[node].parent == node.parent && s.mem[y].left == y.left;
      var rn: Node := node.right;
      var p := node.parent;
      var between: Node := rn.left;
      PutChild(R, node, between);
      PutChild(L, rn, node);
      PutParent(node, rn);
      AdoptChild(between, node);
      Relink(p, node, rn);
      PutParent(rn, p);
    }

    method RightRotate(node: Node, ghost y: Node, ghost b: Node)
      requires CanRotate(Now(), R, node, y, b)
      modifies this`root, nodes`left, nodes`right, nodes`parent
      ensures Now() == Rotated(old(Now()), R, node, y, b)
    {
      ghost var s := Now();
      assert s.mem[node].left == node.left && s.mem[node].parent == node.parent && s.mem[y].right == y.right;
      var ln: Node := node.left;
      var p := node.parent;
      var between: Node := ln.right;
      PutChild(L, node, between);
      PutChild(R, ln, node);
      PutParent(node, ln);
      AdoptChild(between, node);
      Relink(p, node, ln);
      PutParent(ln, p);
    }

    // Repair

    method Sibling(n: Node, ghost p: Path) returns (s: Node)
      requires Place(Now(), p, Stub(n)) && p.Step?
      ensures s in nodes && s == Ptr(Now(), p.o)
      ensures n.parent == p.x && p.x in nodes && (n == p.x.left <==> p.side == L) && p.x.red == p.red
    {
      WhichSide(Now(), p, n);
      assert p.x.left == Now().mem[p.x].left && p.x.right == Now().mem[p.x].right && n.parent == Now().mem[n].parent;
      if n == n.parent.left { s := n.parent.right; } else { s := n.parent.left; }
    }

    /** `x` is rotated towards its child `n`. */
    method RotateTowards(x: Node, n: Node, ghost side: Side, ghost y: Node, ghost b: Node)
      requires CanRotate(Now(), side, x, y, b) && (n == x.left <==> side == L)
      modifies this`root, nodes`left, nodes`right, nodes`parent
      ensures Now() == Rotated(old(Now()), side, x, y, b)
    {
      if n == x.left {
        LeftRotate(x, y, b);
      } else {
        RightRotate(x, y, b);
      }
    }

    /** Case 2: the sibling is red. */
    method LiftRedSibling(n: Node, s: Node, ghost p: Path, ghost h: int) returns (ghost q: Path)
      requires Place(Now(), p, Stub(n)) && p.Step? && Around(p, h) && h >= 1 && PathNoStub(p) && Red(p.o)
      requires s == p.o.x && s in nodes
      modifies this`root, nodes`left, nodes`right, nodes`parent, nodes`red
      ensures Place(Now(), q, Stub(n)) && SameOff(old(Now()), Now(), PathNodes(p))
      ensures q.Step? && Around(q, h) && SameSpan(p, q) && !Red(q.o) && q.red
    {
      ghost var s0, b := Now(), s;
      var _ := Sibling(n, p);
      var x: Node := n.parent;
      Paint(x, true);
      Paint(s, false);
      b, q := Case2Turned(s0, p, n, h, Now());
      RotateTowards(x, n, p.side, s, b);
    }

    /** Case 5: of the black sibling's children only the near one is red. */
    method TurnSibling(n: Node, s: Node, ghost p: Path, ghost h: int) returns (ghost q: Path)
      requires Place(Now(), p, Stub(n)) && p.Step? && Around(p, h) && h >= 1 && PathNoStub(p) && !Red(p.o)
      requires p.o.Fork? && s == p.o.x
      requires Red(Near(p.side, p.o)) && !Red(Far(p.side, p.o))
      modifies this`root, nodes`left, nodes`right, nodes`parent, nodes`red
      ensures Place(Now(), q, Stub(n)) && SameOff(old(Now()), Now(), PathNodes(p))
      ensures q.Step? && Around(q, h) && SameSpan(p, q) && !Red(q.o) && q.o.Fork? && Red(Far(q.side, q.o))
    {
      ghost var s0, c, b := Now(), Near(p.side, p.o), s;
      var _ := Sibling(n, p);
      SiblingColours(s0, p, Stub(n));
      assert s.left == s0.mem[s].left && s.right == s0.mem[s].right;
      if n == n.parent.left {
        var near: Node := s.left;
        Paint(s, true);
        Paint(near, false);
        b, q := Case5Turned(s0, p, n, h, Now());
        RightRotate(s, c.x, b);
      } else {
        var near: Node := s.right;
        Paint(s, true);
        Paint(near, false);
        b, q := Case5Turned(s0, p, n, h, Now());
        LeftRotate(s, c.x, b);
      }
    }

    /** Case 6: the black sibling's far child is red. */
    method LiftBlackSibling(n: Node, s: Node, ghost p: Path, ghost h: int) returns (ghost q: Path)
      requires Place(Now(), p, Stub(n)) && p.Step? && Around(p, h) && h >= 1 && PathNoStub(p) && !Red(p.o)
      requires p.o.Fork? && s == p.o.x
      requires Red(Far(p.side, p.o))
      modifies this`root, nodes`left, nodes`right, nodes`parent, nodes`red
      ensures Place(Now(), q, Stub(n)) && SameOff(old(Now()), Now(), PathNodes(p))
      ensures Around(q, h - 1) && SameSpan(p, q)
    {
      ghost var s0, b := Now(), s;
      var _ := Sibling(n, p);
      SiblingColours(s0, p, Stub(n));
      assert s.left == s0.mem[s].left && s.right == s0.mem[s].right;
      var x: Node := n.parent;
      Paint(s, x.red);
      Paint(x, false);
      var far: Node := if n == x.left then s.right else s.left;
      Paint(far, false);
      b, q := Case6Turned(s0, p, n, h, Now());
      RotateTowards(x, n, p.side, s, b);
    }

    /** Takes `n` out of the tree; its only child, if any, comes up in its place. */
    method DelRepairDone(n: Node, ghost p: Path, ghost t: Tree, ghost was: Node?)
      requires Place(Now(), p, Stub(n)) && p.Step?
      requires TreeOk(Now(), t, was) && n !in Nodes(t) && Nodes(t) !! PathNodes(p)
      requires (n.left == Ptr(Now(), t) && n.right == sentinel) || (n.left == sentinel && n.right == Ptr(Now(), t))
      modifies this`root, nodes`left, nodes`right, nodes`parent
      ensures Place(Now(), p, t) && SameOff(old(Now()), Now(), PathNodes(p) + Nodes(t))
    {
      ghost var s := Now();
      TakeOut(s, p, n, t, was);
      TakeOutOff(s, p, n, t);
      assert n.parent == s.mem[n].parent;
      var child: Node := if n.left != sentinel then n.left else n.right;
      var parent: Node := n.parent;
      AdoptChild(child, parent);
      Relink(parent, n, child);
    }

    /** Case 2, where it applies. */
    method LiftIfRed(n: Node, ghost p: Path, ghost h: int) returns (ghost q: Path)
      requires Place(Now(), p, Stub(n)) && p.Step? && Around(p, h) && h >= 1 && PathNoStub(p)
      modifies this`root, nodes`left, nodes`right, nodes`parent, nodes`red
      ensures Place(Now(), q, Stub(n)) && SameOff(old(Now()), Now(), PathNodes(p))
      ensures q.Step? && Around(q, h) && SameSpan(p, q) && !Red(q.o) && q.o.Fork?
      ensures q.red || (q == p && Now() == old(Now()))
    {
      q := p;
      var s := Sibling(n, p);
      SiblingIsNode(p, h);
      SiblingColours(Now(), p, Stub(n));
      assert s.red == Now().mem[s].red;
      if s.red {
        q := LiftRedSibling(n, s, p, h);
        SiblingIsNode(q, h);
      }
    }

    /** Cases 5 and 6: the black sibling has a red child. */
    method RepairRedNephew(n: Node, s: Node, ghost p: Path, ghost h: int) returns (ghost q: Path)
      requires Place(Now(), p, Stub(n)) && p.Step? && Around(p, h) && h >= 1 && PathNoStub(p) && !Red(p.o)
      requires p.o.Fork? && s == p.o.x
      requires Red(p.o.l) || Red(p.o.r)
      modifies this`root, nodes`left, nodes`right, nodes`parent, nodes`red
      ensures Place(Now(), q, Stub(n)) && SameOff(old(Now()), Now(), PathNodes(p))
      ensures Around(q, h - 1) && SameSpan(p, q)
    {
      ghost var s0 := Now();
      q := p;
      var _ := Sibling(n, p);
      SiblingColours(s0, p, Stub(n));
      assert s.left == s0.mem[s].left && s.right == s0.mem[s].right;
      var far: Node := if n == n.parent.left then s.right else s.left;
      assert far.red == s0.mem[far].red;
      if !far.red {
        q := TurnSibling(n, s, p, h);
      }
      ghost var s1, w := Now(), q;
      var t := Sibling(n, w);
      q := LiftBlackSibling(n, t, w, h);
      OffThen(s0, s1, Now(), PathNodes(p));
    }

    /** The parent, the sibling and the sibling's children are all black. */
    method AllBlack(n: Node, ghost p: Path, ghost h: int) returns (b: bool)
      requires Place(Now(), p, Stub(n)) && p.Step? && Around(p, h) && h >= 1 && PathNoStub(p) && !Red(p.o) && p.o.Fork?
      ensures b <==> !p.red && !Red(p.o.l) && !Red(p.o.r)
    {
      var s := Sibling(n, p);
      SiblingColours(Now(), p, Stub(n));
      assert s.left == Now().mem[s].left && s.right == Now().mem[s].right;
      var l: Node, r: Node := s.left, s.right;
      assert Now().mem[l].red == l.red && Now().mem[r].red == r.red && Now().mem[s].red == s.red;
      b := !n.parent.red && !s.red && !l.red && !r.red;
    }

    /** Cases 4 to 6: the sibling is black, but not all around it is. */
    method RepairBlack(n: Node, ghost p: Path, ghost h: int) returns (ghost q: Path)
      requires Place(Now(), p, Stub(n)) && p.Step? && Around(p, h) && h >= 1 && PathNoStub(p) && !Red(p.o) && p.o.Fork?
      requires p.red || Red(p.o.l) || Red(p.o.r)
      modifies this`root, nodes`left, nodes`right, nodes`parent, nodes`red
      ensures Place(Now(), q, Stub(n)) && SameOff(old(Now()), Now(), PathNodes(p))
      ensures Around(q, h - 1) && SameSpan(p, q)
    {
      ghost var s0 := Now();
      var s := Sibling(n, p);
      SiblingColours(s0, p, Stub(n));
      assert s.left == s0.mem[s].left && s.right == s0.mem[s].right;
      var l: Node, r: Node, x: Node := s.left, s.right, n.parent;
      assert s0.mem[l].red == l.red && s0.mem[r].red == r.red;
      if x.red && !s.red && !l.red && !r.red {
        Paint(s, true);
        Paint(x, false);
        Case4Done(s0, p, n, h, Now());
        q := Step(p.up, p.side, p.x, false, Fork(p.o.l, p.o.x, true, p.o.r));
      } else {
        q := RepairRedNephew(n, s, p, h);
      }
    }

    method ReddenSibling(n: Node, ghost p: Path)
      requires Place(Now(), p, Stub(n)) && p.Step? && p.o.Fork?
      modifies nodes`red
      ensures p.o.x in nodes && Now() == SetRed(old(Now()), p.o.x, true)
      ensures n.parent == p.x && Place(Now(), p.up, Stub(p.x))
    {
      ghost var s0 := Now();
      var s := Sibling(n, p);
      Paint(s, true);
      Case3Painted(s0, p, n);
    }

    /** Case 3: with everything black, the sibling turns red, and the repair goes on at the parent. */
    method PassUp(n: Node, ghost p: Path, ghost h: int) returns (ghost q: Path)
      requires Place(Now(), p, Stub(n)) && p.Step? && Around(p, h) && h >= 1 && PathNoStub(p)
      requires p.o.Fork? && !p.red && !Red(p.o) && !Red(p.o.l) && !Red(p.o.r)
      modifies this`root, nodes`left, nodes`right, nodes`parent, nodes`red
      ensures Place(Now(), q, Stub(n)) && SameOff(old(Now()), Now(), PathNodes(p))
      ensures Around(q, h - 1) && SameSpan(p, q)
      decreases p, 0
    {
      ghost var s0 := Now();
      ReddenSibling(n, p);
      ghost var s1 := Now();
      ghost var w := DeleteRepair(n.parent, 1, p.up, h + 1);
      Case3Rest(s0, s1, Now(), p, w, n, h);
      q := Step(w, p.side, p.x, false, Fork(p.o.l, p.o.x, true, p.o.r));
    }

    /** Cases 2 to 6, below the root. */
    method RepairBelow(n: Node, ghost p: Path, ghost h: int) returns (ghost q: Path)
      requires Place(Now(), p, Stub(n)) && p.Step? && Around(p, h) && h >= 1 && PathNoStub(p)
      modifies this`root, nodes`left, nodes`right, nodes`parent, nodes`red
      ensures Place(Now(), q, Stub(n)) && SameOff(old(Now()), Now(), PathNodes(p))
      ensures Around(q, h - 1) && SameSpan(p, q)
      decreases p, 1
    {
      ghost var s0 := Now();
      q := LiftIfRed(n, p, h);
      ghost var s1, w := Now(), q;
      var allBlack := AllBlack(n, w, h);
      if allBlack {
        q := PassUp(n, p, h);
      } else {
        q := RepairBlack(n, w, h);
        OffThen(s0, s1, Now(), PathNodes(p));
      }
    }

    /** Makes up for the black node that is missing above `n`; `n` itself only goes when `nest` is zero. */
    method DeleteRepair(n: Node, nest: int, ghost p: Path, ghost h: int) returns (ghost q: Path)
      requires Place(Now(), p, Stub(n)) && Around(p, h) && h >= 1 && PathNoStub(p)
      requires nest == 0 ==> p.Step? && n.left == sentinel && n.right == sentinel
      modifies this`root, nodes`left, nodes`right, nodes`parent, nodes`red
      ensures Place(Now(), q, if nest == 0 then Leaf else Stub(n)) && SameOff(old(Now()), Now(), PathNodes(p))
      ensures Around(q, h - 1) && SameSpan(p, q)
      decreases p, 2
    {
      ghost var s0 := Now();
      assert n.parent == s0.mem[n].parent && n.left == s0.mem[n].left && n.right == s0.mem[n].right;
      if n.parent == null {
        root := n;
        return p;
      }
      q := RepairBelow(n, p, h);
      if nest == 0 {
        ghost var s1 := Now();
        assert n !in PathNodes(p);
        assert s1.mem[n] == s0.mem[n] && n.left == s1.mem[n].left && n.right == s1.mem[n].right;
        DelRepairDone(n, q, Leaf, null);
        OffThen(s0, s1, Now(), PathNodes(p));
      }
    }

    // Removal

    /** The leftmost node below `node`. */
    method Min(node: Node, ghost p: Path, ghost t: Tree)
        returns (m: Node, ghost w: Path, ghost red: bool, ghost r: Tree)
      requires Place(Now(), p, t) && NoStub(t) && t.Fork? && t.x == node
      ensures AllLeft(w) && t == Plug(w, Fork(Leaf, m, red, r)) && Place(Now(), Onto(w, p), Fork(Leaf, m, red, r))
    {
      m, w := node, Top;
      ghost var u := t;
      Open(Now(), p, L, u.l, u.x, u.red, u.r);
      while m.left != sentinel
        invariant AllLeft(w) && u.Fork? && NoStub(u) && u.x == m && m in nodes
        invariant t == Plug(w, u) && Place(Now(), Onto(w, p), u) && m.left == Ptr(Now(), u.l)
        decreases u
      {
        w, u := Step(w, L, u.x, u.red, u.r), u.l;
        m := m.left;
        Open(Now(), Onto(w, p), L, u.l, u.x, u.red, u.r);
        assert Now().mem[m].left == m.left;
      }
      red, r := u.red, u.r;
    }

    /** A copy of `d` stands in for it. */
    method BackUp(d: Node, ghost p: Path, ghost u: Tree) returns (bak: Node)
      requires Place(Now(), p, u) && p.Step? && u.Fork? && u.x == d && d in nodes
      modifies this`nodes, this`root, nodes`left, nodes`right
      ensures fresh(bak) && nodes == old(nodes) + {bak} && p.x in old(nodes)
      ensures Now() == BackedUp(old(Now()), d, bak, p.x)
      ensures bak.left == old(d.left) && bak.right == old(d.right)
    {
      ghost var s := Now();
      bak := new Node(d);
      BackUpPlace(s, p, d, u, bak);
      assert d.parent == s.mem[d].parent;
      nodes := nodes + {bak};
      assert Now() == s.(mem := s.mem[bak := s.mem[d]]) by {
        assert Now().mem == s.mem[bak := s.mem[d]];
      }
      Relink(d.parent, d, bak);
    }

    method CopyLinks(d: Node, node: Node)
      requires d in nodes && node in nodes
      modifies d`left, d`right, d`parent, d`red
      ensures Now() == old(Now()).(mem := old(Now()).mem[d := old(Now()).mem[node]]) && d.right == node.right
    {
      d.left := node.left;
      d.right := node.right;
      d.parent := node.parent;
      d.red := node.red;
      assert Now().mem == old(Now()).mem[d := old(Now()).mem[node]];
    }

    /** What pointed to `node` points to `d`. */
    method LinkAbove(node: Node, d: Node)
      requires node in nodes && (node == root <==> node.parent == null)
      requires node.parent != null ==> node.parent in nodes
      modifies this`root, nodes`left, nodes`right
      ensures Now() == Relinked(old(Now()), old(node.parent), node, d)
    {
      if node == root {
        root := d;
      } else {
        Relink(node.parent, node, d);
      }
    }

    /** The stand-in may be the right child taken over. */
    method LinkStandIn(bak: Node, d: Node, right: Node)
      requires d in nodes && right in nodes && d.right == right && bak != sentinel
      modifies nodes`parent
      ensures Now() == old(Now()) || (right != sentinel && Now() == SetParent(old(Now()), right, d))
      ensures forall x <- nodes :: x != right ==> x.parent == old(x.parent)
    {
      if d.right == bak {
        bak.parent := d;
        assert Now().mem == SetParent(old(Now()), right, d).mem;
      }
    }

    /** Node `d` gets the links and the colour of `node`, and what was linked to `node` is linked to `d`. */
    method TakeOver(node: Node, d: Node, bak: Node, ghost l: Node, ghost r: Node)
      requires node in nodes && d in nodes && l in nodes && r in nodes && node.left == l && node.right == r
      requires (node == root <==> node.parent == null) && (node.parent != null ==> node.parent in nodes)
      requires r != node.parent && r != l && r != d && r != node && node != d && r != sentinel && bak != sentinel
      modifies this`root, nodes`left, nodes`right, nodes`parent, nodes`red
      ensures Now() == Succeeded(old(Now()), node, d, l, r)
    {
      LinkedEarly(Now(), node, d, l, r);
      var left: Node, right: Node := node.left, node.right;
      CopyLinks(d, node);
      LinkStandIn(bak, d, right);
      LinkAbove(node, d);
      AdoptChild(left, d);
      AdoptChild(right, d);
    }

    /** Node `d` takes the place of `node`. */
    method Replace(node: Node, d: Node, bak: Node, ghost p: Path, ghost l: Tree, ghost red: bool, ghost r: Tree)
      requires Place(Now(), p, Fork(l, node, red, r)) && d in nodes && d !in PathNodes(p)
      requires d !in Nodes(Fork(l, node, red, r)) && d != sentinel
      requires node in nodes && bak in nodes && bak != sentinel && bak in Nodes(r)
      modifies this`root, nodes`left, nodes`right, nodes`parent, nodes`red
      ensures Place(Now(), p, Fork(l, d, red, r)) && bak.left == old(bak.left) && bak.right == old(bak.right)
      ensures SameOff(old(Now()), Now(), {d} + PathNodes(p) + Nodes(l) + Nodes(r))
    {
      ghost var s := Now();
      Succeed(s, p, l, node, red, r, d);
      SucceededOff(s, p, l, node, red, r, d);
      RootIs(s, p, node);
      LinkedApart(s, p, l, node, red, r, d);
      assert s.mem[node].left == node.left && s.mem[node].right == node.right && s.mem[node].parent == node.parent;
      ChildrenKept(s, p, l, node, red, r, d, bak);
      assert s.mem[bak].left == bak.left && s.mem[bak].right == bak.right;
      TakeOver(node, d, bak, Ptr(s, l), Ptr(s, r));
      assert Now().mem[bak].left == bak.left && Now().mem[bak].right == bak.right;
    }

    /** The node itself goes, having at most one child. */
    method UnlinkSelf(node: Node, ghost p: Path, ghost side: Side, ghost t: Tree, ghost red: bool) returns (bak: Node)
      requires var u := Pair(side, t, node, red, Leaf);
        Place(Now(), p, u) && p.Step? && RedBlack(Plug(p, u)) && !Red(Plug(p, u)) && NoStub(Plug(p, u))
      requires node in nodes
      modifies this`nodes, this`root, nodes`left, nodes`right
      ensures fresh(bak) && nodes == old(nodes) + {bak} && Held(Now(), p, bak, t, node, red)
      ensures node !in PathNodes(p) && node !in Nodes(t)
    {
      ghost var s, u := Now(), Pair(side, t, node, red, Leaf);
      OneChildShape(p, side, t, node, red);
      Split(s, side, t, node, red, Leaf, Above(p));
      bak := BackUp(node, p, u);
      BackUpPlace(s, p, node, u, bak);
      BackUpRest(s, p, node, u, bak);
    }

    /** The successor `d` goes from its place. */
    method BackUpSuccessor(node: Node, d: Node, ghost p: Path, ghost l: Tree, ghost c: bool, ghost w: Path,
        ghost red: bool, ghost t: Tree)
        returns (bak: Node)
      requires Place(Now(), p, Fork(l, node, c, Plug(w, Fork(Leaf, d, red, t)))) && d in nodes
      modifies this`nodes, this`root, nodes`left, nodes`right
      ensures fresh(bak) && nodes == old(nodes) + {bak} && bak in Nodes(Plug(w, Stub(bak)))
      ensures Place(Now(), p, Fork(l, node, c, Plug(w, Stub(bak))))
      ensures TreeOk(Now(), t, d) && bak.left == sentinel && bak.right == Ptr(Now(), t)
      ensures d !in Nodes(t) && d != sentinel && ({d} + Nodes(t)) !! PathNodes(p)
      ensures ({d} + Nodes(t)) !! Nodes(Fork(l, node, c, Plug(w, Stub(bak))))
    {
      ghost var s, u, q := Now(), Fork(Leaf, d, red, t), Onto(w, Step(p, R, node, c, l));
      Descend(s, p, l, node, c, w, u);
      OntoStep(w, Step(p, R, node, c, l));
      bak := BackUp(d, q, u);
      BackUpPlace(s, q, d, u, bak);
      BackUpRest(s, q, d, u, bak);
      AwayFrom(s, p, l, node, c, w, u, bak);
      Ascend(Now(), p, l, node, c, w, Stub(bak));
    }

    /** The successor `d` goes from its place, and takes that of `node`. */
    method UnlinkSuccessor(node: Node, d: Node, ghost p: Path, ghost l: Tree, ghost c: bool, ghost w: Path,
        ghost red: bool, ghost t: Tree)
        returns (bak: Node)
      requires var u := Fork(l, node, c, Plug(w, Fork(Leaf, d, red, t)));
        Place(Now(), p, u) && RedBlack(Plug(p, u)) && !Red(Plug(p, u)) && NoStub(Plug(p, u))
      requires node in nodes && d in nodes
      modifies this`nodes, this`root, nodes`left, nodes`right, nodes`parent, nodes`red
      ensures fresh(bak) && nodes == old(nodes) + {bak} && Held(Now(), Onto(w, Step(p, R, d, c, l)), bak, t, d, red)
    {
      SuccessorShape(p, l, node, c, w, d, red, t);
      bak := BackUpSuccessor(node, d, p, l, c, w, red, t);
      ghost var s1 := Now();
      Replace(node, d, bak, p, l, c, Plug(w, Stub(bak)));
      ChildHeld(s1, Now(), p, l, d, c, w, bak, t);
      assert Now().mem[bak].left == bak.left && Now().mem[bak].right == bak.right;
    }

    /** A node with two children is replaced by its successor. */
    method UnlinkNext(node: Node, ghost p: Path, ghost l: Tree, ghost c: bool, ghost r: Tree)
        returns (bak: Node, child: Node, red: bool, ghost q: Path, ghost t: Tree, ghost was: Node?)
      requires var u := Fork(l, node, c, r);
        Place(Now(), p, u) && RedBlack(Plug(p, u)) && !Red(Plug(p, u)) && NoStub(Plug(p, u)) && Apart(Plug(p, u))
      requires node in nodes && r.Fork? && NoStub(r)
      modifies this`nodes, this`root, nodes`left, nodes`right, nodes`parent, nodes`red
      ensures fresh(bak) && nodes == old(nodes) + {bak} && Held(Now(), q, bak, t, was, red) && child == Ptr(Now(), t)
      ensures Before(q) + Inorder(t) + After(q) == Without(Inorder(Plug(p, Fork(l, node, c, r))), node)
    {
      ghost var s, w, dc := Now(), p, false;
      Open(s, p, R, r, node, c, l);
      assert node.right == s.mem[node].right;
      var d;
      d, w, dc, t := Min(node.right, Step(p, R, node, c, l), r);
      Split(s, L, Leaf, d, dc, t, Above(Onto(w, Step(p, R, node, c, l))));
      assert d.right == s.mem[d].right && d.red == s.mem[d].red;
      // The leftmost node has no left child, so its only child is the right one.
      child, red := d.right, d.red;
      bak := UnlinkSuccessor(node, d, p, l, c, w, dc, t);
      q, was := Onto(w, Step(p, R, d, c, l)), d;
      SuccessorMoved(p, l, node, c, w, d, dc, t);
    }

    /** The last part: the stand-in goes, and the missing black node is made up for. */
    method Finish(bak: Node, child: Node, red: bool, ghost p: Path, ghost t: Tree, ghost was: Node?)
        returns (ghost q: Path, ghost u: Tree)
      requires Held(Now(), p, bak, t, was, red) && child == Ptr(Now(), t)
      modifies this`root, nodes`left, nodes`right, nodes`parent, nodes`red
      ensures Place(Now(), q, u) && Settled(q, u)
      ensures Before(q) == Before(p) && After(q) == After(p) && Inorder(u) == Inorder(t)
    {
      ghost var s := Now();
      assert bak.left == s.mem[bak].left && bak.right == s.mem[bak].right;
      q, u := p, t;
      if red {
        DelRepairDone(bak, p, t, was);
      } else if child != sentinel {
        BlackenHeld(s, p, bak, t, was);
        u := Fork(t.l, t.x, false, t.r);
        Paint(child, false);
        DelRepairDone(bak, p, u, was);
      } else {
        q := DeleteRepair(bak, 0, p, 1);
      }
    }

    /** The first part: a node with at most one child goes from its place, the node itself or its successor. */
    method Unlink(node: Node, ghost p: Path, ghost l: Tree, ghost c: bool, ghost r: Tree)
        returns (bak: Node, child: Node, red: bool, ghost q: Path, ghost t: Tree, ghost was: Node?)
      requires var u := Fork(l, node, c, r);
        Place(Now(), p, u) && RedBlack(Plug(p, u)) && !Red(Plug(p, u)) && NoStub(Plug(p, u)) && Apart(Plug(p, u))
      requires node in nodes && (p.Top? ==> !l.Leaf? && !r.Leaf?)
      modifies this`nodes, this`root, nodes`left, nodes`right, nodes`parent, nodes`red
      ensures fresh(bak) && nodes == old(nodes) + {bak} && Held(Now(), q, bak, t, was, red) && child == Ptr(Now(), t)
      ensures Before(q) + Inorder(t) + After(q) == Without(Inorder(Plug(p, Fork(l, node, c, r))), node)
      ensures node !in Nodes(t) && node !in PathNodes(q)
    {
      ghost var s := Now();
      Split(s, L, l, node, c, r, Above(p));
      NoStubPlug(p, Fork(l, node, c, r));
      assert node.left == s.mem[node].left && node.right == s.mem[node].right && node.red == s.mem[node].red;
      if node.left == sentinel {
        child, red := node.right, node.red;
        bak := UnlinkSelf(node, p, R, r, c);
        q, t, was := p, r, node;
        OneChildGone(p, node, c, r, R);
      } else if node.right == sentinel {
        child, red := node.left, node.red;
        bak := UnlinkSelf(node, p, L, l, c);
        q, t, was := p, l, node;
        OneChildGone(p, node, c, l, L);
      } else {
        bak, child, red, q, t, was := UnlinkNext(node, p, l, c, r);
      }
      GoneFrom(q, t, Plug(p, Fork(l, node, c, r)), node);
    }

    /** The root has exactly one child, and is `node`. */
    predicate OneChildRoot(node: Node)
      reads this, node
    {
      node == root && ((node.left == sentinel) != (node.right == sentinel))
    }

    static predicate Cleared(node: Node)
      reads node
    {
      node.left == null && node.right == null && node.parent == null && node.key == 0
    }

    method Clear(node: Node)
      requires node !in nodes
      modifies node
      ensures Now() == old(Now()) && Cleared(node)
    {
      node.left := null;
      node.right := null;
      node.parent := null;
      node.key := 0;
    }

    /** The tree's nodes are those of `shape`, which is red-black; above the root stands `above`. */
    ghost predicate Holds(shape: Tree, above: Node?)
      reads this, nodes
    {
      nodes == Nodes(shape) + {sentinel} && Settles(Now(), shape, above)
    }

    /** A whole tree: the root has nothing above. */
    ghost predicate Valid(shape: Tree)
      reads this, nodes
    {
      Holds(shape, null)
    }

    /** A node is not one of the tree's any more. */
    ghost method Drop(node: Node)
      requires node in nodes && node != sentinel
      modifies this`nodes
      ensures nodes == old(nodes) - {node} && Now() == old(Now()).(mem := old(Now()).mem - {node})
    {
      nodes := nodes - {node};
      assert Now().mem == old(Now()).mem - {node};
    }

    /** The root goes, having at most one child, which is the new root. */
    method DeleteRoot(node: Node, ghost side: Side, ghost c: bool, ghost t: Tree)
      requires Place(Now(), Top, Pair(side, t, node, c, Leaf)) && RedBlack(Pair(side, t, node, c, Leaf))
      requires NoStub(Pair(side, t, node, c, Leaf))
      requires node in nodes
      modifies this`root, this`nodes, nodes`red, node
      ensures Settles(Now(), Blackened(t), if t.Leaf? then null else node) && nodes == old(nodes) - {node}
      ensures Cleared(node)
    {
      ghost var s := Now();
      RootGone(s, side, t, node, c);
      var child := OnlyChild(node, side, c, t);
      root := child;
      assert Now() == s.(root := child);
      Paint(child, false);
      Drop(node);
      Clear(node);
    }

    method OnlyChild(node: Node, ghost side: Side, ghost c: bool, ghost t: Tree) returns (child: Node)
      requires TreeOk(Now(), Pair(side, t, node, c, Leaf), null) && node in nodes
      ensures child == Ptr(Now(), t)
    {
      Split(Now(), side, t, node, c, Leaf, null);
      assert node.left == Now().mem[node].left && node.right == Now().mem[node].right;
      child := if node.left == sentinel then node.right else node.left;
    }

    /** The unlinked node is not one of the tree's any more, and loses its links and key. */
    method Retire(node: Node, ghost bak: Node, ghost q: Path, ghost t: Tree, ghost was: Node?, ghost red: bool)
      requires Held(Now(), q, bak, t, was, red) && node != bak && node !in Nodes(t) && node !in PathNodes(q)
      requires node != sentinel
      requires node in nodes
      modifies this`nodes, node
      ensures Held(Now(), q, bak, t, was, red) && nodes == old(nodes) - {node} && Cleared(node)
    {
      ForgetHeld(Now(), q, bak, t, was, red, node);
      Drop(node);
      Clear(node);
    }

    ghost method DropStandIn(bak: Node, u: Tree)
      requires Settles(Now(), u, null) && bak !in Nodes(u) && bak != sentinel && bak in nodes
      modifies this`nodes
      ensures Settles(Now(), u, null) && nodes == old(nodes) - {bak}
    {
      ForgetSettled(Now(), u, null, {bak});
      Drop(bak);
    }

    /** Another node goes: first it is unlinked and cleared. */
    method DeleteFirst(node: Node, ghost p: Path, ghost l: Tree, ghost c: bool, ghost r: Tree)
        returns (bak: Node, child: Node, red: bool, ghost q: Path, ghost t: Tree, ghost was: Node?)
      requires var t0 := Plug(p, Fork(l, node, c, r));
        Place(Now(), p, Fork(l, node, c, r)) && RedBlack(t0) && !Red(t0) && NoStub(t0) && Apart(t0)
      requires node in nodes && node != sentinel && (p.Top? ==> !l.Leaf? && !r.Leaf?)
      modifies this`root, this`nodes, nodes`left, nodes`right, nodes`parent, nodes`red, node
      ensures fresh(bak) && nodes == old(nodes) - {node} + {bak} && Held(Now(), q, bak, t, was, red)
      ensures child == Ptr(Now(), t) && Cleared(node)
      ensures Before(q) + Inorder(t) + After(q) == Without(Inorder(Plug(p, Fork(l, node, c, r))), node)
    {
      hide Without, Inorder, Place, RedBlack, Apart, NoStub, Held, Cleared;
      bak, child, red, q, t, was := Unlink(node, p, l, c, r);
      Retire(node, bak, q, t, was, red);
    }

    /** Then the stand-in goes. */
    method DeleteLast(bak: Node, child: Node, red: bool, ghost q: Path, ghost t: Tree, ghost was: Node?)
        returns (ghost u: Tree)
      requires Held(Now(), q, bak, t, was, red) && child == Ptr(Now(), t) && bak != sentinel
      modifies this`root, this`nodes, nodes`left, nodes`right, nodes`parent, nodes`red
      ensures Settles(Now(), u, null) && Nodes(u) == Nodes(t) + PathNodes(q)
      ensures Inorder(u) == Before(q) + Inorder(t) + After(q) && nodes == old(nodes) - {bak}
    {
      ghost var v, w := Finish(bak, child, red, q, t, was);
      SettledTree(Now(), v, w, q, t);
      u := Plug(v, w);
      DropStandIn(bak, u);
    }

    method DeleteInner(node: Node, ghost p: Path, ghost l: Tree, ghost c: bool, ghost r: Tree) returns (ghost u: Tree)
      requires var t0 := Plug(p, Fork(l, node, c, r));
        Place(Now(), p, Fork(l, node, c, r)) && RedBlack(t0) && !Red(t0) && NoStub(t0) && Apart(t0)
      requires node in nodes && node != sentinel && (p.Top? ==> !l.Leaf? && !r.Leaf?)
      modifies this`root, this`nodes, nodes`left, nodes`right, nodes`parent, nodes`red, node
      ensures Settles(Now(), u, null) && nodes == old(nodes) - {node} && Cleared(node)
      ensures Inorder(u) == Without(Inorder(Plug(p, Fork(l, node, c, r))), node)
    {
      var bak, child, red;
      ghost var q, t, was;
      bak, child, red, q, t, was := DeleteFirst(node, p, l, c, r);
      u := DeleteLast(bak, child, red, q, t, was);
      assert bak !in old(nodes);
    }

    /** Removes `node` from the tree, and clears it; the other nodes stay, in order. */
    method Delete(node: Node, ghost t: Tree) returns (ghost u: Tree)
      requires Valid(t) && node in Nodes(t)
      modifies this`root, this`nodes, nodes`left, nodes`right, nodes`parent, nodes`red, node
      ensures Holds(u, if old(OneChildRoot(node)) then node else null)
      ensures Valid(u) <==> !old(OneChildRoot(node))
      ensures Inorder(u) == Without(Inorder(t), node) && nodes == old(nodes) - {node}
      ensures Cleared(node)
    {
      ghost var p, l, c, r := PathTo(Top, t, node);
      ZipDown(Now(), p, Fork(l, node, c, r));
      Open(Now(), p, L, l, node, c, r);
      RootIs(Now(), p, node);
      if node == root && (node.left == sentinel || node.right == sentinel) {
        ghost var side := if node.left == sentinel then R else L;
        ghost var only := if node.left == sentinel then r else l;
        RootGoneOrder(side, only, node, c);
        RootGoneNodes(side, only, node, c);
        DeleteRoot(node, side, c, only);
        u := Blackened(only);
      } else {
        u := DeleteInner(node, p, l, c, r);
        RestSet(t, u, node);
      }
    }

    ghost function Keys(): map<Node, int>
      reads this, nodes
    {
      map x | x in nodes :: x.key
    }

    /** A deletion keeps the order of the keys. */
    method DeleteSorted(node: Node, ghost t: Tree) returns (ghost u: Tree)
      requires Valid(t) && node in Nodes(t) && Sorted(Inorder(t), Keys())
      modifies this`root, this`nodes, nodes`left, nodes`right, nodes`parent, nodes`red, node
      ensures Sorted(Inorder(u), Keys()) && Inorder(u) == Without(Inorder(t), node)
    {
      ghost var keys := Keys();
      u := Delete(node, t);
      assert forall y <- nodes :: y.key == old(y.key) && Keys()[y] == keys[y];
      SortedWithout(Inorder(t), node, keys, Keys());
    }

    /** The next node in order. */
    method Next(node: Node, ghost t: Tree) returns (next: Node?)
      requires Valid(t) && node in Nodes(t)
      ensures exists i :: 0 <= i < |Inorder(t)| && Inorder(t)[i] == node && next == NextAt<Node?>(Inorder(t), i, null)
    {
      ghost var p, l, c, r := PathTo(Top, t, node);
      ZipDown(Now(), p, Fork(l, node, c, r));
      NextIsFirst(p, l, node, c, r);
      NoStubPlug(p, Fork(l, node, c, r));
      Open(Now(), p, R, r, node, c, l);
      assert node.right == Now().mem[node].right;
      if node.right != sentinel {
        ghost var w, red, s;
        next, w, red, s := Min(node.right, Step(p, R, node, c, l), r);
        FirstAfter(p, w, next, red, s);
      } else {
        next := Climb(node, p, Fork(l, node, c, r));
      }
    }

    /** The first node above that has `node` on its left. */
    method Climb(node: Node, ghost p: Path, ghost u: Tree) returns (next: Node?)
      requires Place(Now(), p, u) && u.Fork? && u.x == node && node in nodes
      ensures next == First<Node?>(After(p), null)
    {
      var n := node;
      ghost var q, v := p, u;
      while true
        invariant Place(Now(), q, v) && v.Fork? && v.x == n && n in nodes && After(q) == After(p)
        decreases q
      {
        RootIs(Now(), q, n);
        var parent := n.parent;
        assert n.parent == Now().mem[n].parent;
        if n == root { return null; }
        ClimbSide(Now(), q, v);
        assert parent.left == Now().mem[parent].left;
        if n == parent.left { return parent; }
        Close(Now(), q, v);
        n := parent;
        q, v := q.up, Pair(q.side, v, q.x, q.red, q.o);
      }
    }
  }

  /** A black root with a red right child: the tree, and its two nodes. */
  method TwoNodes() returns (tree: RbTree, a: Node, b: Node)
    ensures fresh(tree) && fresh(a) && fresh(b) && fresh(tree.sentinel) && tree.root == a && a.key == 1 && b.key == 2
    ensures tree.nodes == {tree.sentinel, a, b} && a.left == tree.sentinel != a.right == b
    ensures tree.Valid(Fork(Leaf, a, false, Fork(Leaf, b, true, Leaf)))
  {
    var nil := new Node.Fresh(0);
    a := new Node.Fresh(1);
    b := new Node.Fresh(2);
    a.left, a.right, a.parent, a.red := nil, b, null, false;
    b.left, b.right, b.parent, b.red := nil, nil, a, true;
    tree := new RbTree(nil);
    tree.root, tree.nodes := a, {nil, a, b};
    ghost var r := Fork(Leaf, b, true, Leaf);
    assert Rep(tree.Now(), r, b, a) && Apart(r) && Nodes(r) == {b};
    assert Nodes(Fork(Leaf, a, false, r)) == {a} + Nodes(r) == {a, b};
    assert Rep(tree.Now(), Fork(Leaf, a, false, r), a, null);
  }

  /** The root with one child goes, and the child becomes the root, but still names it as its parent. */
  method OneChildRootGone() returns (tree: RbTree, ghost u: Tree)
    ensures !tree.Valid(u) && tree.root.key == 2 && Inorder(u) == [tree.root] && tree.root.parent != null
  {
    var a, b;
    tree, a, b := TwoNodes();
    ghost var t := Fork(Leaf, a, false, Fork(Leaf, b, true, Leaf));
    u := tree.Delete(a, t);
    assert Inorder(Fork(Leaf, b, true, Leaf)) == [b] && Inorder(t) == [a, b];
    assert [a, b][1..] == [b] && [b][1..] == [];
    assert tree.Holds(u, a);
    RootOf(tree, u, b, a);
  }

  /** The only node of a tree is its root, with what stands above it as its parent. */
  lemma RootOf(tree: RbTree, u: Tree, b: Node, above: Node?)
    requires tree.Holds(u, above) && Inorder(u) == [b]
    ensures tree.root == b && b.parent == above && b in tree.nodes
  {
    if u.Fork? {
      assert Inorder(u)[|Inorder(u.l)|] == u.x;
      assert tree.Now().mem[u.x].parent == u.x.parent;
    }
  }
}
