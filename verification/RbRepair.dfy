/** The cases of the repair after a deletion, as changes of the memory. */
module RbRepair {
  import opened RbShape
  import opened RbStore
  import opened RbFocus

  /** The two stores have the same nodes, and only those in `xs` may differ. */
  ghost predicate SameOff(s: Store, s': Store, xs: set<Node>) {
    s'.nil == s.nil && s'.mem.Keys == s.mem.Keys && forall x {:trigger s'.mem[x]} ::
        x in s.mem && x !in xs ==> s'.mem[x] == s.mem[x]
  }

  lemma OffThen(s: Store, s1: Store, s2: Store, xs: set<Node>)
    requires SameOff(s, s1, xs) && SameOff(s1, s2, xs)
    ensures SameOff(s, s2, xs)
  {
    forall x | x in s.mem && x !in xs ensures s2.mem[x] == s.mem[x] { assert s1.mem[x] == s.mem[x]; }
  }

  lemma PaintOff(s: Store, x: Node, v: bool, xs: set<Node>)
    requires x in s.mem && x in xs
    ensures SameOff(s, SetRed(s, x, v), xs)
  {
  }

  lemma RotatedOff(s: Store, side: Side, x: Node, y: Node, b: Node, xs: set<Node>)
    requires CanRotate(s, side, x, y, b) && x in xs && y in xs && (b == s.nil || b in xs)
    requires s.mem[x].parent == null || s.mem[x].parent in xs
    ensures SameOff(s, Rotated(s, side, x, y, b), xs)
  {
    var s1 := SetParent(SetChild(SetChild(s, Other(side), x, b), side, y, x), x, y);
    assert SameOff(s, s1, xs);
    var s2 := Adopted(s1, b, x);
    assert SameOff(s1, s2, xs);
    OffThen(s, s1, s2, xs);
    var s3 := Relinked(s2, s.mem[x].parent, x, y);
    assert SameOff(s2, s3, xs);
    OffThen(s, s2, s3, xs);
    var s4 := SetParent(s3, y, s.mem[x].parent);
    assert SameOff(s3, s4, xs);
    OffThen(s, s3, s4, xs);
  }

  lemma PartsOnPath(p: Path, side: Side, b: Tree, y: Node, cy: bool, c: Tree)
    requires p.Step? && p.o == Pair(side, b, y, cy, c)
    ensures p.x in PathNodes(p) && y in PathNodes(p) && Nodes(b) <= PathNodes(p) && Nodes(c) <= PathNodes(p)
    ensures Above(p.up) == null || Above(p.up) in PathNodes(p)
  {
    assert Nodes(p.o) <= PathNodes(p) && PathNodes(p.up) <= PathNodes(p);
  }

  /** A rotation of the hole's parent stays on the path. */
  lemma RotateParentOff(s: Store, p: Path, t: Tree, b: Tree, y: Node, cy: bool, c: Tree)
    requires Place(s, p, t) && p.Step? && p.o == Pair(p.side, b, y, cy, c) && CanRotate(s, p.side, p.x, y, Ptr(s, b))
    ensures SameOff(s, Rotated(s, p.side, p.x, y, Ptr(s, b)), PathNodes(p))
  {
    PartsOnPath(p, p.side, b, y, cy, c);
    TopIsNode(s, b);
    RotatedOff(s, p.side, p.x, y, Ptr(s, b), PathNodes(p));
  }

  lemma RotateSiblingOff(s: Store, p: Path, t: Tree, a: Tree, x: Node, cx: bool, b: Tree, y: Node, cy: bool, c: Tree)
    requires Place(s, p, t) && p.Step? && p.o == Pair(p.side, Pair(p.side, a, x, cx, b), y, cy, c)
    requires CanRotate(s, Other(p.side), y, x, Ptr(s, b))
    ensures SameOff(s, Rotated(s, Other(p.side), y, x, Ptr(s, b)), PathNodes(p))
  {
    var z := Pair(p.side, a, x, cx, b);
    PartsOnPath(p, p.side, z, y, cy, c);
    assert x in Nodes(z) && Nodes(b) <= Nodes(z);
    TopIsNode(s, b);
    Swap(s, p, t);
    Split(s, p.side, z, y, cy, c, p.x);
    RotatedOff(s, Other(p.side), y, x, Ptr(s, b), PathNodes(p));
  }

  /** Case 2, dl_rbtree.c: the parent turns red, the sibling black, and the parent is rotated towards the hole. */
  lemma Case2Painted(s: Store, p: Path, n: Node, h: int, s2: Store)
    requires Place(s, p, Stub(n)) && p.Step? && Around(p, h) && h >= 1 && PathNoStub(p) && Red(p.o)
    requires p.x in s.mem && p.o.x in s.mem && s2 == SetRed(SetRed(s, p.x, true), p.o.x, false)
    ensures var o := Pair(p.side, Near(p.side, p.o), p.o.x, false, Far(p.side, p.o));
      Place(s2, Step(p.up, p.side, p.x, true, o), Stub(n)) && SameOff(s, s2, PathNodes(p))
      && PathNodes(Step(p.up, p.side, p.x, true, o)) == PathNodes(p)
  {
    SiblingIsNode(p, h);
    PaintParent(s, p, Stub(n), true);
    PaintSibling(SetRed(s, p.x, true), p.(red := true), Stub(n), false);
    PartsOnPath(p, p.side, Near(p.side, p.o), p.o.x, true, Far(p.side, p.o));
    PaintOff(s, p.x, true, PathNodes(p));
    PaintOff(SetRed(s, p.x, true), p.o.x, false, PathNodes(p));
    OffThen(s, SetRed(s, p.x, true), s2, PathNodes(p));
  }

  lemma Case2Turned(s: Store, p: Path, n: Node, h: int, s2: Store) returns (b: Node, q: Path)
    requires Place(s, p, Stub(n)) && p.Step? && Around(p, h) && h >= 1 && PathNoStub(p) && Red(p.o)
    requires p.x in s.mem && p.o.x in s.mem && s2 == SetRed(SetRed(s, p.x, true), p.o.x, false)
    ensures CanRotate(s2, p.side, p.x, p.o.x, b)
    ensures var s3 := Rotated(s2, p.side, p.x, p.o.x, b); Place(s3, q, Stub(n)) && SameOff(s, s3, PathNodes(p))
    ensures q.Step? && Around(q, h) && SameSpan(p, q) && !Red(q.o) && q.red
  {
    Case2Painted(s, p, n, h, s2);
    Case2Around(p, h);
    var near, far := Near(p.side, p.o), Far(p.side, p.o);
    var p2 := Step(p.up, p.side, p.x, true, Pair(p.side, near, p.o.x, false, far));
    b, q := Ptr(s2, near), Lifted(p.up, p.side, p.x, true, near, p.o.x, false, far);
    RotateParent(s2, p2, Stub(n), near, p.o.x, false, far);
    RotateParentOff(s2, p2, Stub(n), near, p.o.x, false, far);
    OffThen(s, s2, Rotated(s2, p.side, p.x, p.o.x, b), PathNodes(p));
  }

  /** Case 3, the local part: the sibling turns red. */
  lemma Case3Painted(s: Store, p: Path, n: Node)
    requires Place(s, p, Stub(n)) && p.Step? && p.o.Fork? && p.o.x in s.mem
    ensures var s1, w := SetRed(s, p.o.x, true), p.(o := Fork(p.o.l, p.o.x, true, p.o.r));
      Place(s1, w, Stub(n)) && Place(s1, w.up, Stub(w.x)) && SameOff(s, s1, PathNodes(p))
          && PathNodes(w) == PathNodes(p)
  {
    var s1, w := SetRed(s, p.o.x, true), p.(o := Fork(p.o.l, p.o.x, true, p.o.r));
    PaintSibling(s, p, Stub(n), true);
    Hide(s1, w, Stub(n));
    assert p.o.x in Nodes(p.o) && Nodes(w.o) == Nodes(p.o);
    PaintOff(s, p.o.x, true, PathNodes(p));
  }

  /** Case 3, the rest: once the parent's place is repaired, so is the hole's. */
  lemma Case3Rest(s: Store, s1: Store, s2: Store, p: Path, q: Path, n: Node, h: int)
    requires Place(s, p, Stub(n)) && p.Step? && p.o.Fork? && p.o.x in s.mem && s1 == SetRed(s, p.o.x, true)
    requires Around(p, h) && h >= 1 && PathNoStub(p) && !p.red && !Red(p.o) && !Red(p.o.l) && !Red(p.o.r)
    requires Place(s2, q, Stub(p.x)) && Around(q, h) && SameSpan(p.up, q) && SameOff(s1, s2, PathNodes(p.up))
    ensures var w := Step(q, p.side, p.x, false, Fork(p.o.l, p.o.x, true, p.o.r));
      Place(s2, w, Stub(n)) && Around(w, h - 1) && SameSpan(p, w) && SameOff(s, s2, PathNodes(p))
  {
    var w1 := p.(o := Fork(p.o.l, p.o.x, true, p.o.r));
    Case3Around(p, q, h);
    Case3Painted(s, p, n);
    AgreeOff(s1, s2, w1, Stub(n));
    Unhide(s1, s2, w1, q, Stub(n));
    SameOffMore(s1, s2, PathNodes(p.up), PathNodes(p));
    OffThen(s, s1, s2, PathNodes(p));
  }

  lemma SameOffMore(s: Store, s': Store, xs: set<Node>, ys: set<Node>)
    requires SameOff(s, s', xs) && xs <= ys
    ensures SameOff(s, s', ys)
  {
  }

  lemma AgreeOff(s: Store, s': Store, p: Path, t: Tree)
    requires Place(s, p, t) && p.Step? && SameOff(s, s', PathNodes(p.up))
    ensures Agree(s, s', {p.x}) && Agree(s, s', Nodes(t)) && Agree(s, s', Nodes(p.o))
  {
    assert ({p.x} + Nodes(p.o)) !! PathNodes(p.up);
    assert Nodes(t) !! PathNodes(p) && PathNodes(p.up) <= PathNodes(p);
  }

  /** Case 4: the sibling turns red, and the red parent black. */
  lemma Case4Done(s: Store, p: Path, n: Node, h: int, s2: Store)
    requires Place(s, p, Stub(n)) && p.Step? && p.o.Fork? && p.o.x in s.mem && p.x in s.mem
    requires Around(p, h) && h >= 1 && PathNoStub(p) && p.red && !Red(p.o) && !Red(p.o.l) && !Red(p.o.r)
    requires s2 == SetRed(SetRed(s, p.o.x, true), p.x, false)
    ensures var q := Step(p.up, p.side, p.x, false, Fork(p.o.l, p.o.x, true, p.o.r));
      Place(s2, q, Stub(n)) && Around(q, h - 1) && SameSpan(p, q) && SameOff(s, s2, PathNodes(p))
  {
    var s1, w := SetRed(s, p.o.x, true), p.(o := Fork(p.o.l, p.o.x, true, p.o.r));
    Case4Around(p, h);
    Case3Painted(s, p, n);
    PaintParent(s1, w, Stub(n), false);
    PaintOff(s1, p.x, false, PathNodes(p));
    OffThen(s, s1, s2, PathNodes(p));
  }

  /** Case 5: the sibling turns red and its near child black, and the sibling is rotated away from the hole. */
  lemma Case5Painted(s: Store, p: Path, n: Node, h: int, s2: Store)
    requires Place(s, p, Stub(n)) && p.Step? && Around(p, h) && h >= 1 && PathNoStub(p) && !Red(p.o) && p.o.Fork?
    requires Red(Near(p.side, p.o)) && !Red(Far(p.side, p.o)) && p.o.x in s.mem && Near(p.side, p.o).x in s.mem
    requires s2 == SetRed(SetRed(s, p.o.x, true), Near(p.side, p.o).x, false)
    ensures var c := Near(p.side, p.o);
      var w := p.(o := Pair(p.side, Fork(c.l, c.x, false, c.r), p.o.x, true, Far(p.side, p.o)));
      Place(s2, w, Stub(n)) && SameOff(s, s2, PathNodes(p)) && PathNodes(w) == PathNodes(p)
  {
    var c, s1 := Near(p.side, p.o), SetRed(s, p.o.x, true);
    Case3Painted(s, p, n);
    SiblingIsNode(p, h);
    var w1 := p.(o := Pair(p.side, c, p.o.x, true, Far(p.side, p.o)));
    PaintNephew(s1, w1, Stub(n), p.side, Far(p.side, p.o), p.o.x, true, c, false);
    PartsOnPath(p, p.side, c, p.o.x, p.o.red, Far(p.side, p.o));
    PaintOff(s1, c.x, false, PathNodes(p));
    OffThen(s, s1, s2, PathNodes(p));
  }

  lemma Case5Turned(s: Store, p: Path, n: Node, h: int, s2: Store) returns (b: Node, q: Path)
    requires Place(s, p, Stub(n)) && p.Step? && Around(p, h) && h >= 1 && PathNoStub(p) && !Red(p.o) && p.o.Fork?
    requires Red(Near(p.side, p.o)) && !Red(Far(p.side, p.o)) && p.o.x in s.mem && Near(p.side, p.o).x in s.mem
    requires s2 == SetRed(SetRed(s, p.o.x, true), Near(p.side, p.o).x, false)
    ensures CanRotate(s2, Other(p.side), p.o.x, Near(p.side, p.o).x, b)
    ensures var s3 := Rotated(s2, Other(p.side), p.o.x, Near(p.side, p.o).x, b);
      Place(s3, q, Stub(n)) && SameOff(s, s3, PathNodes(p))
    ensures q.Step? && Around(q, h) && SameSpan(p, q) && !Red(q.o) && q.o.Fork? && Red(Far(q.side, q.o))
  {
    Case5Painted(s, p, n, h, s2);
    Case5Around(p, h);
    var c, y, far := Near(p.side, p.o), p.o.x, Far(p.side, p.o);
    var cn, cf := Near(p.side, c), Far(p.side, c);
    var w := p.(o := Pair(p.side, Pair(p.side, cn, c.x, false, cf), y, true, far));
    assert Fork(c.l, c.x, false, c.r) == Pair(p.side, cn, c.x, false, cf);
    b, q := Ptr(s2, cf), Step(p.up, p.side, p.x, p.red, Pair(p.side, cn, c.x, false, Pair(p.side, cf, y, true, far)));
    RotateSibling(s2, w, Stub(n), cn, c.x, false, cf, y, true, far);
    RotateSiblingOff(s2, w, Stub(n), cn, c.x, false, cf, y, true, far);
    OffThen(s, s2, Rotated(s2, Other(p.side), y, c.x, b), PathNodes(p));
  }

  /** Case 6: the sibling takes the parent's colour, the parent and the far child turn black. */
  lemma Case6Painted(s: Store, p: Path, n: Node, h: int, s3: Store)
    requires Place(s, p, Stub(n)) && p.Step? && Around(p, h) && h >= 1 && PathNoStub(p) && !Red(p.o) && p.o.Fork?
    requires Red(Far(p.side, p.o)) && p.x in s.mem && p.o.x in s.mem && Far(p.side, p.o).x in s.mem
    requires s3 == SetRed(SetRed(SetRed(s, p.o.x, p.red), p.x, false), Far(p.side, p.o).x, false)
    ensures var c := Far(p.side, p.o);
      var w := Step(p.up, p.side, p.x, false,
          Pair(p.side, Near(p.side, p.o), p.o.x, p.red, Fork(c.l, c.x, false, c.r)));
      Place(s3, w, Stub(n)) && SameOff(s, s3, PathNodes(p)) && PathNodes(w) == PathNodes(p)
  {
    SiblingIsNode(p, h);
    var c, b := Far(p.side, p.o), Near(p.side, p.o);
    var s1 := SetRed(s, p.o.x, p.red);
    var s2 := SetRed(s1, p.x, false);
    PaintSibling(s, p, Stub(n), p.red);
    var w1 := p.(o := Pair(p.side, b, p.o.x, p.red, c));
    PaintParent(s1, w1, Stub(n), false);
    PaintNephew(s2, w1.(red := false), Stub(n), Other(p.side), b, p.o.x, p.red, c, false);
    PartsOnPath(p, p.side, b, p.o.x, p.o.red, c);
    PaintOff(s, p.o.x, p.red, PathNodes(p));
    PaintOff(s1, p.x, false, PathNodes(p));
    PaintOff(s2, c.x, false, PathNodes(p));
    OffThen(s, s1, s2, PathNodes(p));
    OffThen(s, s2, s3, PathNodes(p));
  }

  lemma Case6Turned(s: Store, p: Path, n: Node, h: int, s3: Store) returns (b: Node, q: Path)
    requires Place(s, p, Stub(n)) && p.Step? && Around(p, h) && h >= 1 && PathNoStub(p) && !Red(p.o) && p.o.Fork?
    requires Red(Far(p.side, p.o)) && p.x in s.mem && p.o.x in s.mem && Far(p.side, p.o).x in s.mem
    requires s3 == SetRed(SetRed(SetRed(s, p.o.x, p.red), p.x, false), Far(p.side, p.o).x, false)
    ensures CanRotate(s3, p.side, p.x, p.o.x, b)
    ensures var s4 := Rotated(s3, p.side, p.x, p.o.x, b); Place(s4, q, Stub(n)) && SameOff(s, s4, PathNodes(p))
    ensures q.Step? && Around(q, h - 1) && SameSpan(p, q)
  {
    Case6Painted(s, p, n, h, s3);
    var c, near := Far(p.side, p.o), Near(p.side, p.o);
    var f := Fork(c.l, c.x, false, c.r);
    Case6Around(p, h, f);
    var w := Step(p.up, p.side, p.x, false, Pair(p.side, near, p.o.x, p.red, f));
    b, q := Ptr(s3, near), Lifted(p.up, p.side, p.x, false, near, p.o.x, p.red, f);
    RotateParent(s3, w, Stub(n), near, p.o.x, p.red, f);
    RotateParentOff(s3, w, Stub(n), near, p.o.x, p.red, f);
    OffThen(s, s3, Rotated(s3, p.side, p.x, p.o.x, b), PathNodes(p));
  }

  /** Taking the stub out touches its parent and the child that comes up. */
  lemma TakeOutOff(s: Store, p: Path, n: Node, t: Tree)
    requires Place(s, p, Stub(n)) && p.Step? && p.x in s.mem && Ptr(s, t) in s.mem
    ensures SameOff(s, Relinked(Adopted(s, Ptr(s, t), p.x), p.x, n, Ptr(s, t)), PathNodes(p) + Nodes(t))
  {
    assert p.x in PathNodes(p);
    TopIsNode(s, t);
  }
}
