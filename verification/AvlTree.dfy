/** AVL insertion, lookup and order of visiting, as pointer operations. */
module AvlTrees {
  import opened AvlShape
  import opened AvlStore
  import opened AvlWalk
  import opened Sequences

  class AvlTree {
    var root: Node?
    /** The nodes of the tree, and one that is being inserted. */
    ghost var nodes: set<Node>

    ghost function Now(): Store
      reads this`nodes, nodes
    {
      map x | x in nodes :: Cell(x.left, x.right, x.parent, x.height)
    }

    constructor ()
      ensures root == null && nodes == {}
    {
      root, nodes := null, {};
    }

    lemma CellOf(x: Node)
      requires x in nodes
      ensures x in Now() && Now()[x] == Cell(x.left, x.right, x.parent, x.height)
    {
    }

    method PutChild(side: Side, x: Node, v: Node?)
      requires x in nodes
      modifies nodes`left, nodes`right
      ensures Now() == SetChild(old(Now()), side, x, v)
    {
      if side == L { x.left := v; } else { x.right := v; }
    }

    method PutParent(x: Node?, v: Node?)
      requires x != null ==> x in nodes
      modifies nodes`parent
      ensures Now() == SetParent(old(Now()), x, v)
    {
      if x != null { x.parent := v; }
    }

    method PutHeight(x: Node, v: nat)
      requires x in nodes
      modifies nodes`height
      ensures Now() == SetHeight(old(Now()), x, v)
    {
      x.height := v;
    }

    /** The height of a node from those of its children. */
    method Measure(x: Node, ghost a: Tree, ghost b: Tree) returns (h: nat)
      requires x in nodes && TopHeight(Now(), a, x.left) && TopHeight(Now(), b, x.right)
      ensures h == 1 + Max(H(a), H(b))
    {
      var l := if x.left != null then x.left.height else 0;
      var r := if x.right != null then x.right.height else 0;
      assert x.left != null ==> Now()[x.left].height == l;
      assert x.right != null ==> Now()[x.right].height == r;
      h := 1 + if l > r then l else r;
    }

    /** The heights of `x` and of `y` above it are set anew. */
    method SetHeights(side: Side, x: Node, ghost a: Tree, ghost b: Tree, y: Node, ghost c: Tree)
      requires x in nodes && y in nodes && x != y
      requires TopHeight(Now(), a, Child(Now()[x], side)) && TopHeight(Now(), b, Child(Now()[x], Other(side)))
      requires Child(Now()[y], side) == x && TopHeight(Now(), c, Child(Now()[y], Other(side)))
      requires Child(Now()[y], Other(side)) != x
      modifies nodes`height
      ensures Now() == SetHeight(SetHeight(old(Now()), x, Height(a, b)), y, 1 + Max(Height(a, b), H(c)))
    {
      var h1 := MeasureSides(side, x, a, b);
      PutHeight(x, h1);
      assert TopHeight(Now(), Pair(side, a, x, h1, b), Child(Now()[y], side));
      assert TopHeight(Now(), c, Child(Now()[y], Other(side)));
      var h2 := MeasureSides(side, y, Pair(side, a, x, h1, b), c);
      PutHeight(y, h2);
    }

    method MeasureSides(side: Side, x: Node, ghost a: Tree, ghost b: Tree) returns (h: nat)
      requires x in nodes && TopHeight(Now(), a, Child(Now()[x], side))
      requires TopHeight(Now(), b, Child(Now()[x], Other(side)))
      ensures h == Height(a, b)
    {
      CellOf(x);
      if side == L {
        h := Measure(x, a, b);
      } else {
        h := Measure(x, b, a);
      }
    }

    /** The links of a rotation. */
    method Relink(side: Side, x: Node, y: Node)
      requires x in nodes && y in nodes && x != y
      requires var b := Child(Now()[y], side); b != null ==> b in nodes && b != x && b != y
      modifies nodes`left, nodes`right, nodes`parent
      ensures Now() == Relinked(old(Now()), side, x, y, Child(old(Now())[y], side))
    {
      CellOf(y);
      var between := if side == L then y.left else y.right;
      PutChild(Other(side), x, between);
      PutParent(between, x);
      PutChild(side, y, x);
      PutParent(x, y);
      PutParent(y, null);
    }

    /** A rotation of `x` towards `side`; the child `y` from the other side is the new top. */
    method Turn(side: Side, x: Node, ghost a: Tree, ghost hx: nat, ghost b: Tree, y: Node, ghost hy: nat, ghost c: Tree)
      requires Turnable(Now(), side, a, x, b, y, hy, c) && Apart(Pair(side, a, x, hx, Pair(side, b, y, hy, c)))
      modifies nodes`left, nodes`right, nodes`parent, nodes`height
      ensures var h1 := Height(a, b);
        var h2 := 1 + Max(h1, H(c));
        Loose(Now(), Pair(side, Pair(side, a, x, h1, b), y, h2, c), y) && Now()[y].parent == null
      ensures SameOff(old(Now()), Now(), {x, y} + Nodes(b))
    {
      ghost var s := Now();
      Rotate(s, side, a, x, hx, b, y, hy, c);
      RelinkedParts(s, side, a, x, hx, b, y, hy, c);
      Parts(s, side, a, x, hx, b, y, hy, c);
      TopNode(b);
      hide Relinked, Rep, Loose, Apart, Nodes, SetHeight;
      Relink(side, x, y);
      TopHeights(Now(), side, a, x, b, y, c);
      SetHeights(side, x, a, b, y, c);
    }

    method RightRotate(node: Node, ghost t: Tree) returns (top: Node)
      requires t.Fork? && t.l.Fork? && t.x == node && Apart(t)
      requires Turnable(Now(), R, t.r, t.x, t.l.r, t.l.x, t.l.h, t.l.l)
      modifies nodes`left, nodes`right, nodes`parent, nodes`height
      ensures Loose(Now(), RotateRight(t), top) && Now()[top].parent == null && SameOff(old(Now()), Now(), Nodes(t))
    {
      CellOf(node);
      top := node.left;
      Turn(R, node, t.r, t.h, t.l.r, top, t.l.h, t.l.l);
      OffMore(old(Now()), Now(), {node, top} + Nodes(t.l.r), Nodes(t));
    }

    method LeftRotate(node: Node, ghost t: Tree) returns (top: Node)
      requires t.Fork? && t.r.Fork? && t.x == node && Apart(t)
      requires Turnable(Now(), L, t.l, t.x, t.r.l, t.r.x, t.r.h, t.r.r)
      modifies nodes`left, nodes`right, nodes`parent, nodes`height
      ensures Loose(Now(), RotateLeft(t), top) && Now()[top].parent == null && SameOff(old(Now()), Now(), Nodes(t))
    {
      CellOf(node);
      top := node.right;
      Turn(L, node, t.l, t.h, t.r.l, top, t.r.h, t.r.r);
      OffMore(old(Now()), Now(), {node, top} + Nodes(t.r.l), Nodes(t));
    }

    /** The height of the node is set anew, and its balance is restored. */
    method InsertRepair(target: Node, key: int, ghost t: Tree) returns (top: Node)
      requires Loose(Now(), t, target) && Apart(t) && Repairable(t, key)
      modifies nodes`left, nodes`right, nodes`parent, nodes`height
      ensures Loose(Now(), Repair(t, key), top) && SameOff(old(Now()), Now(), Nodes(t))
      ensures Now()[top].parent == null || (top == target && Now()[top].parent == old(Now())[target].parent)
    {
      ghost var s := Now();
      MeasureParts(s, t, target);
      CellOf(target);
      var h := Measure(target, t.l, t.r);
      PutHeight(target, h);
      ghost var u := Make(t.l, t.x, t.r);
      TopMeasured(s, t, target);
      top := Rebalance(target, key, u);
      OffThen(s, SetHeight(s, target, h), Now(), Nodes(t));
    }

    /** The four cases. */
    method Rebalance(target: Node, key: int, ghost u: Tree) returns (top: Node)
      requires Loose(Now(), u, target) && Apart(u) && Repairable(u, key) && u == Make(u.l, u.x, u.r)
      modifies nodes`left, nodes`right, nodes`parent, nodes`height
      ensures Loose(Now(), Repair(u, key), top) && SameOff(old(Now()), Now(), Nodes(u))
      ensures Now()[top].parent == null || (top == target && Now()[top].parent == old(Now())[target].parent)
    {
      CellOf(target);
      ChildCells(u, target);
      var hl := if target.left != null then target.left.height else 0;
      var hr := if target.right != null then target.right.height else 0;
      var balance: int := hl - hr;
      if balance > 1 && key < target.left.key {
        LooseTurnable(Now(), R, u.r, u.x, u.h, u.l.r, u.l.x, u.l.h, u.l.l);
        top := RightRotate(target, u);
      } else if balance < -1 && key > target.right.key {
        LooseTurnable(Now(), L, u.l, u.x, u.h, u.r.l, u.r.x, u.r.h, u.r.r);
        top := LeftRotate(target, u);
      } else if balance > 1 && key > target.left.key {
        top := LeftRight(target, u);
      } else if balance < -1 && key < target.right.key {
        top := RightLeft(target, u);
      } else {
        top := target;
      }
    }

    lemma ChildCells(u: Tree, target: Node)
      requires Loose(Now(), u, target) && u.Fork?
      ensures target.left == Top(u.l) && target.right == Top(u.r)
      ensures u.l.Fork? ==> u.l.x.height == u.l.h
      ensures u.r.Fork? ==> u.r.x.height == u.r.h
    {
      CellOf(target);
      if u.l.Fork? { CellOf(u.l.x); }
      if u.r.Fork? { CellOf(u.r.x); }
    }

    /** The left child is rotated to the left, then the node to the right. */
    method LeftRight(target: Node, ghost u: Tree) returns (top: Node)
      requires Loose(Now(), u, target) && Apart(u) && u.Fork? && u.l.Fork? && u.l.r.Fork?
      modifies nodes`left, nodes`right, nodes`parent, nodes`height
      ensures Loose(Now(), RotateRight(Fork(RotateLeft(u.l), u.x, u.h, u.r)), top) && Now()[top].parent == null
      ensures SameOff(old(Now()), Now(), Nodes(u))
    {
      ghost var s := Now();
      ChildCells(u, target);
      LeftTurnable(s, u, target);
      var l := LeftRotate(target.left, u.l);
      ghost var s1 := Now();
      PutChild(L, target, l);
      ghost var v := Fork(RotateLeft(u.l), u.x, u.h, u.r);
      LeftTurned(s, s1, u, target, l);
      ghost var s2 := Now();
      top := RightRotate(target, v);
      OffThen(s, s2, Now(), Nodes(u));
    }

    /** The right child is rotated to the right, then the node to the left. */
    method RightLeft(target: Node, ghost u: Tree) returns (top: Node)
      requires Loose(Now(), u, target) && Apart(u) && u.Fork? && u.r.Fork? && u.r.l.Fork?
      modifies nodes`left, nodes`right, nodes`parent, nodes`height
      ensures Loose(Now(), RotateLeft(Fork(u.l, u.x, u.h, RotateRight(u.r))), top) && Now()[top].parent == null
      ensures SameOff(old(Now()), Now(), Nodes(u))
    {
      ghost var s := Now();
      ChildCells(u, target);
      RightTurnable(s, u, target);
      var r := RightRotate(target.right, u.r);
      ghost var s1 := Now();
      PutChild(R, target, r);
      ghost var v := Fork(u.l, u.x, u.h, RotateRight(u.r));
      RightTurned(s, s1, u, target, r);
      ghost var s2 := Now();
      top := LeftRotate(target, v);
      OffThen(s, s2, Now(), Nodes(u));
    }

    /** A node that is not in the tree yet. */
    ghost predicate Single(n: Node)
      reads this`nodes, nodes
    {
      n in nodes && Now()[n].left == null && Now()[n].right == null && Now()[n].height == 1
    }

    /** The new node goes below `target`; null if its key is there already. */
    method InsertValue(target: Node, node: Node, ghost t: Tree) returns (top: Node?)
      requires Loose(Now(), t, target) && t.Fork? && Apart(t) && Avl(t) && node !in Nodes(t) && Single(node)
      modifies nodes`left, nodes`right, nodes`parent, nodes`height
      ensures top == null <==> Has(t, node.key)
      ensures top != null ==> top in nodes && Loose(Now(), Inserted(t, node), top)
      ensures top != null ==>
          Now()[top].parent == null || (top == target && Now()[top].parent == old(Now())[target].parent)
      ensures top == null ==> Loose(Now(), Broken(t, node.key), target)
      ensures top == null ==> Now()[target].parent == old(Now())[target].parent
      ensures SameOff(old(Now()), Now(), Nodes(t) + {node})
      decreases t, 1
    {
      ChildCells(t, target);
      if node.key < target.key {
        top := InsertSide(L, target, node, t, t.l, t.r);
      } else if node.key > target.key {
        top := InsertSide(R, target, node, t, t.r, t.l);
      } else {
        top := null;
      }
    }

    /** The new node goes below the child on side `side`; what comes back is the new child, even if it is null. */
    method InsertSide(side: Side, target: Node, node: Node, ghost t: Tree, ghost a: Tree, ghost b: Tree)
        returns (top: Node?)
      requires Loose(Now(), t, target) && t.Fork? && Apart(t) && Avl(t) && node !in Nodes(t) && Single(node)
      requires t == Pair(side, a, target, t.h, b)
      requires if side == L then node.key < target.key else node.key > target.key
      modifies nodes`left, nodes`right, nodes`parent, nodes`height
      ensures top == null <==> Has(t, node.key)
      ensures top != null ==> top in nodes && Loose(Now(), Inserted(t, node), top)
      ensures top != null ==>
          Now()[top].parent == null || (top == target && Now()[top].parent == old(Now())[target].parent)
      ensures top == null ==> Loose(Now(), Broken(t, node.key), target)
      ensures top == null ==> Now()[target].parent == old(Now())[target].parent
      ensures SameOff(old(Now()), Now(), Nodes(t) + {node})
      decreases t, 0
    {
      ghost var s := Now();
      SideParts(s, side, a, target, t.h, b);
      var child := InsertBelow(side, target, node, a);
      ghost var s1 := Now();
      PutChild(side, target, child);
      if child == null {
        SideBroken(s, s1, side, a, target, t.h, b, node);
        return null;
      }
      PutParent(child, target);
      InsertApart(a, node);
      SideLinked(s, s1, side, a, target, t.h, b, node, Inserted(a, node), child);
      SideRepair(side, t, a, target, b, node);
      ghost var s3, v := Now(), Pair(side, Inserted(a, node), target, t.h, b);
      top := InsertRepair(target, node.key, v);
      OffMore(s3, Now(), Nodes(v), Nodes(t) + {node});
      OffThen(s, s3, Now(), Nodes(t) + {node});
    }

    /** The child on side `side`, with the new node below it or in its place. */
    method InsertBelow(side: Side, target: Node, node: Node, ghost a: Tree) returns (child: Node?)
      requires target in nodes && Single(node) && node !in Nodes(a) && Apart(a) && Avl(a)
      requires Loose(Now(), a, Child(Now()[target], side))
      modifies nodes`left, nodes`right, nodes`parent, nodes`height
      ensures child == null <==> Has(a, node.key)
      ensures child != null ==> child in nodes && Loose(Now(), Inserted(a, node), child)
      ensures SameOff(old(Now()), Now(), Nodes(a) + {node})
      decreases a, 2
    {
      CellOf(target);
      var old1 := if side == L then target.left else target.right;
      if old1 == null {
        child := node;
      } else {
        child := InsertValue(old1, node, a);
      }
    }

    // The whole tree

    ghost predicate Valid(t: Tree)
      reads this, nodes
    {
      Rep(Now(), t, root, null) && Apart(t) && Avl(t) && Ordered(t, None, None) && nodes == Nodes(t)
    }

    /** A node without children, and no parent. */
    method Reset(node: Node)
      requires node !in nodes
      modifies this`nodes, node
      ensures nodes == old(nodes) + {node} && Single(node) && node.parent == null
      ensures forall x :: x in old(Now()) ==> x in Now() && Now()[x] == old(Now())[x]
    {
      node.height := 1;
      node.left := null;
      node.right := null;
      node.parent := null;
      nodes := nodes + {node};
    }

    /** Inserts a reset node into a tree that is not empty. */
    method InsertInto(node: Node, ghost t: Tree) returns (top: Node?)
      requires root != null && Rep(Now(), t, root, null) && Apart(t) && Avl(t) && Single(node) && node !in Nodes(t)
      modifies this`root, nodes`left, nodes`right, nodes`parent, nodes`height
      ensures top == null <==> Has(t, node.key)
      ensures top != null ==> Rep(Now(), Inserted(t, node), root, null)
      ensures top == null ==> Rep(Now(), Broken(t, node.key), root, null)
    {
      RepLoose(Now(), t, root, null);
      RootParent(Now(), t, root);
      hide Inserted, Broken, Avl, Apart, Rep, Loose;
      top := InsertValue(root, node, t);
      if top == null {
        LooseRep(Now(), Broken(t, node.key), root);
      } else {
        LooseRep(Now(), Inserted(t, node), top);
        root := top;
      }
    }

    /** Inserts a node, unless its key is there already. */
    method Insert(node: Node, ghost t: Tree) returns (top: Node?, ghost u: Tree)
      requires Valid(t) && node !in nodes
      modifies this, nodes, node
      ensures top == null <==> Has(t, node.key)
      ensures top != null ==> Valid(u) && Inorder(u) == Placed(Inorder(t), node) && nodes == old(nodes) + {node}
      ensures top != null ==> u == Inserted(t, node)
      ensures top == null ==> t.Fork? && u == Broken(t, node.key) && Rep(Now(), u, root, null) && nodes == old(nodes)
    {
      ghost var s0 := Now();
      Reset(node);
      RepFrame(s0, Now(), t, root, null);
      if root == null {
        root, top := node, node;
        CellOf(node);
      } else {
        top := InsertInto(node, t);
      }
      if top == null {
        u := Broken(t, node.key);
        BrokenNodes(t, node.key);
        Forget(node, u);
      } else {
        u := Inserted(t, node);
        InsertApart(t, node);
        InsertOrdered(t, node, None, None);
        InsertInorder(t, node, None, None);
      }
    }

    ghost method Forget(node: Node, u: Tree)
      requires node in nodes && Rep(Now(), u, root, null) && node !in Nodes(u)
      modifies this`nodes
      ensures nodes == old(nodes) - {node} && Rep(Now(), u, root, null)
    {
      ghost var s := Now();
      nodes := nodes - {node};
      RepFrame(s, Now(), u, root, null);
    }

    /** The node with the key, if there is one. */
    method FindByKey(key: int, ghost t: Tree) returns (found: Node?)
      requires Valid(t)
      ensures found == null <==> !Holds(Inorder(t), key)
      ensures found != null ==> found in Nodes(t) && found.key == key
    {
      HasIff(t, key, None, None);
      var cur := root;
      ghost var u := t;
      RepLoose(Now(), t, root, null);
      while cur != null
        invariant Loose(Now(), u, cur) && (Has(t, key) <==> Has(u, key)) && Nodes(u) <= Nodes(t)
        decreases u
      {
        ChildCells(u, cur);
        if cur.key == key { return cur; }
        FindDown(Now(), u, cur);
        if cur.key > key {
          cur, u := cur.left, u.l;
        } else {
          cur, u := cur.right, u.r;
        }
      }
      found := null;
    }

    /** The leftmost node below `node`. */
    method Min(node: Node, ghost t: Tree) returns (m: Node)
      requires t.Fork? && Loose(Now(), t, node)
      ensures Inorder(t) != [] && m == Inorder(t)[0]
    {
      m := node;
      ghost var u := t;
      ChildCells(u, m);
      FirstLeft(u);
      while m.left != null
        invariant u.Fork? && Loose(Now(), u, m) && m.left == Top(u.l) && Inorder(t) != []
        invariant First<Node?>(Inorder(u), null) == Inorder(t)[0]
        invariant First<Node?>(Inorder(u), null) == if u.l.Leaf? then u.x else First<Node?>(Inorder(u.l), null)
        decreases u
      {
        FindDown(Now(), u, m);
        u := u.l;
        m := m.left;
        ChildCells(u, m);
        FirstLeft(u);
      }
    }

    /** The next node in ascending order of keys. */
    method Next(node: Node, ghost t: Tree) returns (next: Node?)
      requires Valid(t) && node in Nodes(t)
      ensures exists i :: 0 <= i < |Inorder(t)| && Inorder(t)[i] == node && next == NextAt<Node?>(Inorder(t), i, null)
      ensures Ascending(Inorder(t))
    {
      OrderedAscending(t, None, None);
      assert Place(Now(), root, Root, t);
      ghost var p, l, h, r := PathTo(Now(), root, Root, t, node);
      NextIsFirst(p, l, node, h, r);
      ghost var u := Fork(l, node, h, r);
      RepLoose(Now(), u, node, Above(p));
      ChildCells(u, node);
      if node.right != null {
        FindDown(Now(), u, node);
        next := Min(node.right, r);
      } else {
        next := Climb(node, p, u);
      }
    }

    /** The first node above that has `node` on its left. */
    method Climb(node: Node, ghost p: Path, ghost u: Tree) returns (next: Node?)
      requires On(Now(), root, p, u) && u.x == node
      ensures next == First<Node?>(After(p), null)
    {
      var n := node;
      ghost var q, v := p, u;
      while true
        invariant On(Now(), root, q, v) && v.x == n && After(q) == After(p)
        decreases q
      {
        WhichSide(Now(), root, q, v);
        CellOf(n);
        var parent := n.parent;
        if n == root { return null; }
        CellOf(parent);
        if parent.left == n { return parent; }
        GoUp(Now(), root, q, v);
        n := parent;
        q, v := q.up, Pair(q.side, v, q.x, q.h, q.o);
      }
    }
  }

  lemma FirstLeft(u: Tree)
    requires u.Fork?
    ensures Inorder(u) != []
    ensures First<Node?>(Inorder(u), null) == if u.l.Leaf? then u.x else First<Node?>(Inorder(u.l), null)
    ensures u.l.Fork? ==> Inorder(u.l) != []
  {
    if u.l.Fork? { assert Inorder(u.l)[|Inorder(u.l.l)|] == u.l.x; }
  }

  lemma FindDown(s: Store, u: Tree, x: Node)
    requires Loose(s, u, x) && u.Fork?
    ensures Loose(s, u.l, Top(u.l)) && Loose(s, u.r, Top(u.r)) && Nodes(u.l) <= Nodes(u) && Nodes(u.r) <= Nodes(u)
  {
    RepLoose(s, u.l, s[x].left, x);
    RepLoose(s, u.r, s[x].right, x);
  }

  lemma BrokenNodes(t: Tree, key: int)
    requires Has(t, key)
    ensures Nodes(Broken(t, key)) <= Nodes(t)
  {
  }

  lemma RootParent(s: Store, t: Tree, at: Node)
    requires Rep(s, t, at, null)
    ensures t.Fork? && at in s && s[at].parent == null
  {
  }

  lemma LooseRep(s: Store, t: Tree, at: Node)
    requires Loose(s, t, at) && at in s && s[at].parent == null
    ensures Rep(s, t, at, null)
  {
  }

  lemma LeftTurnable(s: Store, u: Tree, x: Node)
    requires Loose(s, u, x) && Apart(u) && u.Fork? && u.l.Fork? && u.l.r.Fork?
    ensures Apart(u.l) && Turnable(s, L, u.l.l, u.l.x, u.l.r.l, u.l.r.x, u.l.r.h, u.l.r.r)
  {
    RepLoose(s, u.l, s[x].left, x);
    LooseTurnable(s, L, u.l.l, u.l.x, u.l.h, u.l.r.l, u.l.r.x, u.l.r.h, u.l.r.r);
  }

  lemma RightTurnable(s: Store, u: Tree, x: Node)
    requires Loose(s, u, x) && Apart(u) && u.Fork? && u.r.Fork? && u.r.l.Fork?
    ensures Apart(u.r) && Turnable(s, R, u.r.r, u.r.x, u.r.l.r, u.r.l.x, u.r.l.h, u.r.l.l)
  {
    RepLoose(s, u.r, s[x].right, x);
    LooseTurnable(s, R, u.r.r, u.r.x, u.r.h, u.r.l.r, u.r.l.x, u.r.l.h, u.r.l.l);
  }

  /** After the first of two rotations. */
  lemma LeftTurned(s: Store, s1: Store, u: Tree, x: Node, l: Node)
    requires Loose(s, u, x) && Apart(u) && u.Fork? && u.l.Fork? && u.l.r.Fork?
    requires Loose(s1, RotateLeft(u.l), l) && SameOff(s, s1, Nodes(u.l)) && x in s1
    ensures var s2, v := SetChild(s1, L, x, l), Fork(RotateLeft(u.l), u.x, u.h, u.r);
      && Apart(v) && Nodes(v) == Nodes(u) && SameOff(s, s2, Nodes(u))
      && Turnable(s2, R, v.r, v.x, v.l.r, v.l.x, v.l.h, v.l.l)
  {
    RotateLeftInorder(u.l);
    RotateLeftApart(u.l);
    LooseFrame(s1, SetChild(s1, L, x, l), RotateLeft(u.l), l);
    RepFrame(s, SetChild(s1, L, x, l), u.r, s[x].right, x);
  }

  lemma RightTurned(s: Store, s1: Store, u: Tree, x: Node, r: Node)
    requires Loose(s, u, x) && Apart(u) && u.Fork? && u.r.Fork? && u.r.l.Fork?
    requires Loose(s1, RotateRight(u.r), r) && SameOff(s, s1, Nodes(u.r)) && x in s1
    ensures var s2, v := SetChild(s1, R, x, r), Fork(u.l, u.x, u.h, RotateRight(u.r));
      && Apart(v) && Nodes(v) == Nodes(u) && SameOff(s, s2, Nodes(u))
      && Turnable(s2, L, v.l, v.x, v.r.l, v.r.x, v.r.h, v.r.r)
  {
    RotateRightInorder(u.r);
    RotateRightApart(u.r);
    LooseFrame(s1, SetChild(s1, R, x, r), RotateRight(u.r), r);
    RepFrame(s, SetChild(s1, R, x, r), u.l, s[x].left, x);
  }

  lemma LooseFrame(s: Store, s': Store, t: Tree, at: Node?)
    requires Loose(s, t, at) && Agree(s, s', Nodes(t))
    ensures Loose(s', t, at)
  {
    if t.Fork? {
      assert t.x in Nodes(t) && Nodes(t.l) <= Nodes(t) && Nodes(t.r) <= Nodes(t);
      RepFrame(s, s', t.l, s[t.x].left, t.x);
      RepFrame(s, s', t.r, s[t.x].right, t.x);
    }
  }

  /** The children of a node have the heights stored in them. */
  lemma MeasureParts(s: Store, t: Tree, x: Node)
    requires Loose(s, t, x) && t.Fork?
    ensures x in s && TopHeight(s, t.l, s[x].left) && TopHeight(s, t.r, s[x].right)
  {
  }

  lemma TopMeasured(s: Store, t: Tree, x: Node)
    requires Loose(s, t, x) && t.Fork? && Apart(t) && x in s
    ensures var u := Make(t.l, t.x, t.r);
      var s' := SetHeight(s, x, u.h);
      Loose(s', u, x) && Apart(u) && Nodes(u) == Nodes(t) && SameOff(s, s', Nodes(t)) && s'[x].parent == s[x].parent
  {
    var s' := SetHeight(s, x, 1 + Max(H(t.l), H(t.r)));
    RepFrame(s, s', t.l, s[x].left, x);
    RepFrame(s, s', t.r, s[x].right, x);
  }

  /** Pointer `at` leads to a node with the height of `t`. */
  ghost predicate TopHeight(s: Store, t: Tree, at: Node?) {
    if at == null then t.Leaf? else t.Fork? && at in s && s[at].height == t.h
  }

  lemma TopHeights(s: Store, side: Side, a: Tree, x: Node, b: Tree, y: Node, c: Tree)
    requires x in s && y in s && Rep(s, a, Top(a), x) && Rep(s, b, Top(b), x) && Rep(s, c, Top(c), y)
    requires Child(s[x], side) == Top(a) && Child(s[x], Other(side)) == Top(b) && Child(s[y], Other(side)) == Top(c)
    ensures TopHeight(s, a, Child(s[x], side)) && TopHeight(s, b, Child(s[x], Other(side)))
    ensures TopHeight(s, c, Child(s[y], Other(side)))
  {
  }

  lemma SideParts(s: Store, side: Side, a: Tree, x: Node, h: nat, b: Tree)
    requires Loose(s, Pair(side, a, x, h, b), x) && Apart(Pair(side, a, x, h, b))
    ensures x in s && Loose(s, a, Child(s[x], side)) && Apart(a) && (a.Fork? ==> Child(s[x], side) == a.x && a.x in s)
    ensures Nodes(a) <= Nodes(Pair(side, a, x, h, b))
  {
    Split(s, side, a, x, h, b, x);
    RepLoose(s, a, Child(s[x], side), x);
  }

  /** The grown subtree `a'` is linked below `x`. */
  lemma SideLinked(s: Store, s1: Store, side: Side, a: Tree, x: Node, h: nat, b: Tree, n: Node, u: Tree, child: Node)
    requires Loose(s, Pair(side, a, x, h, b), x) && Apart(Pair(side, a, x, h, b)) && n !in Nodes(Pair(side, a, x, h, b))
    requires SameOff(s, s1, Nodes(a) + {n}) && x in s1 && child in s1
    requires Loose(s1, u, child) && u.Fork? && Nodes(u) == Nodes(a) + {n} && Apart(u)
    ensures var s3, v := SetParent(SetChild(s1, side, x, child), child, x), Pair(side, u, x, h, b);
      && Loose(s3, v, x) && Apart(v) && Nodes(v) == Nodes(Pair(side, a, x, h, b)) + {n}
      && SameOff(s, s3, Nodes(Pair(side, a, x, h, b)) + {n}) && s3[x].parent == s[x].parent
  {
    Split(s, side, a, x, h, b, x);
    var s2 := SetChild(s1, side, x, child);
    var s3 := SetParent(s2, child, x);
    LooseFrame(s1, s2, u, child);
    Adopt(s2, u, child, x);
    TopIs(s3, u, child, x);
    assert child in Nodes(u);
    RepFrame(s, s3, b, Child(s[x], Other(side)), x);
    hide Rep, Inserted;
    Join(s3, side, u, x, h, b);
    PairSets(side, a, x, h, b, u, n);
  }

  lemma PairSets(side: Side, a: Tree, x: Node, h: nat, b: Tree, u: Tree, n: Node)
    requires Apart(Pair(side, a, x, h, b)) && n !in Nodes(Pair(side, a, x, h, b)) && Nodes(u) == Nodes(a) + {n}
    requires Apart(u)
    ensures Apart(Pair(side, u, x, h, b)) && Nodes(Pair(side, u, x, h, b)) == Nodes(Pair(side, a, x, h, b)) + {n}
  {
  }

  /** The null result of a refused insertion is stored over the child. */
  lemma SideBroken(s: Store, s1: Store, side: Side, a: Tree, x: Node, h: nat, b: Tree, n: Node)
    requires Loose(s, Pair(side, a, x, h, b), x) && Apart(Pair(side, a, x, h, b)) && n !in Nodes(Pair(side, a, x, h, b))
    requires SameOff(s, s1, Nodes(a) + {n}) && x in s1
    ensures var s2 := SetChild(s1, side, x, null);
      Loose(s2, Pair(side, Leaf, x, h, b), x) && SameOff(s, s2, Nodes(Pair(side, a, x, h, b)) + {n})
          && s2[x].parent == s[x].parent
  {
    Split(s, side, a, x, h, b, x);
    RepFrame(s, SetChild(s1, side, x, null), b, Child(s[x], Other(side)), x);
  }

  /** What is to be repaired after the insertion on side `side`. */
  lemma SideRepair(side: Side, t: Tree, a: Tree, x: Node, b: Tree, n: Node)
    requires Avl(t) && t.Fork? && t == Pair(side, a, x, t.h, b) && !Has(t, n.key) && Avl(a) && !Has(a, n.key)
    requires if side == L then n.key < x.key else n.key > x.key
    ensures var v := Pair(side, Inserted(a, n), x, t.h, b); Repairable(v, n.key) && Inserted(t, n) == Repair(v, n.key)
  {
    if side == L {
      RepairLeft(t, Fork(Inserted(a, n), x, t.h, b), n.key);
    } else {
      RepairRight(t, Fork(b, x, t.h, Inserted(a, n)), n.key);
    }
  }

  /** Of the keys 2 and 1, inserted in this order, the second is lost when it is inserted again. */
  method DuplicateLoses() returns (tree: AvlTree, ghost t: Tree, ghost u: Tree, top: Node?)
    ensures |Inorder(t)| == 2 && top == null && Inorder(u) == [Inorder(t)[1]] && Rep(tree.Now(), u, tree.root, null)
  {
    tree := new AvlTree();
    var two := new Node(2);
    var one := new Node(1);
    var again := new Node(1);
    ghost var t1;
    top, t1 := tree.Insert(two, Leaf);
    top, t := tree.Insert(one, t1);
    assert t == Fork(Fork(Leaf, one, 1, Leaf), two, 2, Leaf);
    top, u := tree.Insert(again, t);
  }
}
