/** Moving the focus in a tree in memory, and repainting and rotating around a hole. */
module RbFocus {
  import opened RbShape
  import opened RbStore

  /** The hole's sibling is in place too. */
  lemma Swap(s: Store, p: Path, t: Tree)
    requires Place(s, p, t) && p.Step?
    ensures Place(s, Step(p.up, Other(p.side), p.x, p.red, t), p.o)
  {
    Close(s, p, t);
    Open(s, p.up, Other(p.side), p.o, p.x, p.red, t);
  }

  /** What is below the hole's parent may be forgotten. */
  lemma Hide(s: Store, p: Path, t: Tree)
    requires Place(s, p, t) && p.Step?
    ensures Place(s, p.up, Stub(p.x))
  {
    assert p.x in PathNodes(p);
    assert {p.x} !! PathNodes(p.up);
  }

  /** What was below the hole's parent is still there after changes elsewhere. */
  lemma Unhide(s: Store, s': Store, p: Path, q: Path, t: Tree)
    requires Place(s, p, t) && p.Step? && Place(s', q, Stub(p.x)) && PathNodes(q) == PathNodes(p.up)
    requires Agree(s, s', {p.x}) && Agree(s, s', Nodes(t)) && Agree(s, s', Nodes(p.o))
    ensures Place(s', Step(q, p.side, p.x, p.red, p.o), t)
  {
    assert p.x in {p.x};
    RepFrame(s, s', t, Ptr(s, t), p.x);
    RepFrame(s, s', p.o, Ptr(s, p.o), p.x);
    UnhideSpine(s, s', p, q, t);
    assert PathNodes(Step(q, p.side, p.x, p.red, p.o)) == PathNodes(p);
  }

  lemma UnhideSpine(s: Store, s': Store, p: Path, q: Path, t: Tree)
    requires Spine(s, p, Ptr(s, t)) && p.Step? && p.x in s'.mem && s'.mem[p.x] == s.mem[p.x] && s'.nil == s.nil
    requires Place(s', q, Stub(p.x)) && Rep(s', p.o, Ptr(s, p.o), p.x)
    ensures Spine(s', Step(q, p.side, p.x, p.red, p.o), Ptr(s, t))
  {
  }

  /** Which side the hole is on can be read off its parent. */
  lemma WhichSide(s: Store, p: Path, n: Node)
    requires Place(s, p, Stub(n)) && p.Step?
    ensures p.x in s.mem && n in s.mem && s.mem[n].parent == p.x && s.nil in s.mem
    ensures n == s.mem[p.x].left <==> p.side == L
    ensures Child(s.mem[p.x], Other(p.side)) == Ptr(s, p.o) && s.mem[p.x].red == p.red
    ensures Ptr(s, p.o) in s.mem
  {
    TopIsNode(s, p.o);
    assert n !in PathNodes(p);
  }

  lemma ColourOf(s: Store, t: Tree, parent: Node?)
    requires TreeOk(s, t, parent) && NoStub(t) && s.nil in s.mem && !s.mem[s.nil].red
    ensures Ptr(s, t) in s.mem && s.mem[Ptr(s, t)].red == Red(t)
  {
  }

  /** The colours of the sibling and its children. */
  lemma SiblingColours(s: Store, p: Path, n: Tree)
    requires Place(s, p, n) && p.Step? && p.o.Fork? && NoStub(p.o)
    ensures p.o.x in s.mem && s.mem[p.o.x].red == Red(p.o) && p.o.x != s.nil
    ensures s.mem[p.o.x].left == Ptr(s, p.o.l) && s.mem[p.o.x].right == Ptr(s, p.o.r)
    ensures Ptr(s, p.o.l) in s.mem && s.mem[Ptr(s, p.o.l)].red == Red(p.o.l)
    ensures Ptr(s, p.o.r) in s.mem && s.mem[Ptr(s, p.o.r)].red == Red(p.o.r)
  {
    Swap(s, p, n);
    Split(s, L, p.o.l, p.o.x, p.o.red, p.o.r, p.x);
    ColourOf(s, p.o.l, p.o.x);
    ColourOf(s, p.o.r, p.o.x);
  }

  lemma PaintParent(s: Store, p: Path, t: Tree, v: bool)
    requires Place(s, p, t) && p.Step?
    ensures p.x in s.mem && Place(SetRed(s, p.x, v), p.(red := v), t)
  {
    Close(s, p, t);
    if p.side == L {
      PaintPlace(s, p.up, t, p.x, p.red, p.o, v);
      Open(SetRed(s, p.x, v), p.up, L, t, p.x, v, p.o);
    } else {
      PaintPlace(s, p.up, p.o, p.x, p.red, t, v);
      Open(SetRed(s, p.x, v), p.up, R, t, p.x, v, p.o);
    }
  }

  lemma PaintSibling(s: Store, p: Path, t: Tree, v: bool)
    requires Place(s, p, t) && p.Step? && p.o.Fork?
    ensures p.o.x in s.mem && Place(SetRed(s, p.o.x, v), p.(o := Fork(p.o.l, p.o.x, v, p.o.r)), t)
  {
    Swap(s, p, t);
    var q := Step(p.up, Other(p.side), p.x, p.red, t);
    PaintPlace(s, q, p.o.l, p.o.x, p.o.red, p.o.r, v);
    Swap(SetRed(s, p.o.x, v), q, Fork(p.o.l, p.o.x, v, p.o.r));
  }

  /** Painting the top of the sibling's child on side `at`. */
  lemma PaintNephew(s: Store, p: Path, t: Tree, at: Side, o: Tree, y: Node, cy: bool, c: Tree, v: bool)
    requires Place(s, p, t) && p.Step? && c.Fork? && p.o == Pair(at, c, y, cy, o)
    ensures c.x in s.mem
    ensures Place(SetRed(s, c.x, v), p.(o := Pair(at, Fork(c.l, c.x, v, c.r), y, cy, o)), t)
  {
    Swap(s, p, t);
    var q := Step(p.up, Other(p.side), p.x, p.red, t);
    Open(s, q, at, c, y, cy, o);
    var w := Step(q, at, y, cy, o);
    PaintPlace(s, w, c.l, c.x, c.red, c.r, v);
    Close(SetRed(s, c.x, v), w, Fork(c.l, c.x, v, c.r));
    Swap(SetRed(s, c.x, v), q, Pair(at, Fork(c.l, c.x, v, c.r), y, cy, o));
  }

  /** The store after a rotation of `x` towards `side`. */
  function Rotated(s: Store, side: Side, x: Node, y: Node, b: Node): Store
    requires x in s.mem && y in s.mem && b in s.mem && (s.mem[x].parent != null ==> s.mem[x].parent in s.mem)
  {
    Raised(Turned(s, side, x, y, b), x, y, s.mem[x].parent)
  }

  /** A rotation can be done on these nodes. */
  ghost predicate CanRotate(s: Store, side: Side, x: Node, y: Node, b: Node) {
    && x in s.mem && y in s.mem && b in s.mem && x != y && (s.mem[x].parent != null ==> s.mem[x].parent in s.mem)
    && Child(s.mem[x], Other(side)) == y && Child(s.mem[y], side) == b
  }

  /** Rotating the hole's parent towards the hole lifts the sibling. */
  lemma RotateParent(s: Store, p: Path, t: Tree, b: Tree, y: Node, cy: bool, c: Tree)
    requires Place(s, p, t) && p.Step? && p.o == Pair(p.side, b, y, cy, c)
    ensures CanRotate(s, p.side, p.x, y, Ptr(s, b))
    ensures Place(Rotated(s, p.side, p.x, y, Ptr(s, b)), Lifted(p.up, p.side, p.x, p.red, b, y, cy, c), t)
  {
    Close(s, p, t);
    Rotate(s, p.up, p.side, t, p.x, p.red, b, y, cy, c);
    var s' := Rotated(s, p.side, p.x, y, Ptr(s, b));
    Open(s', p.up, p.side, Pair(p.side, t, p.x, p.red, b), y, cy, c);
    Open(s', Step(p.up, p.side, y, cy, c), p.side, t, p.x, p.red, b);
  }

  lemma FlipPair(side: Side, a: Tree, x: Node, cx: bool, b: Tree, y: Node, cy: bool, c: Tree)
    ensures Pair(side, Pair(side, a, x, cx, b), y, cy, c) == Pair(Other(side), c, y, cy, Pair(Other(side), b, x, cx, a))
    ensures Pair(Other(side), Pair(Other(side), c, y, cy, b), x, cx, a) == Pair(side, a, x, cx, Pair(side, b, y, cy, c))
  {
  }

  /** Rotating a subtree `Pair(side, Pair(side, a, x, b), y, c)` away from `side` lifts `x`. */
  lemma RotateAway(s: Store, q: Path, side: Side, a: Tree, x: Node, cx: bool, b: Tree, y: Node, cy: bool, c: Tree)
    requires Place(s, q, Pair(side, Pair(side, a, x, cx, b), y, cy, c))
    ensures CanRotate(s, Other(side), y, x, Ptr(s, b))
    ensures Place(Rotated(s, Other(side), y, x, Ptr(s, b)), q, Pair(side, a, x, cx, Pair(side, b, y, cy, c)))
  {
    FlipPair(side, a, x, cx, b, y, cy, c);
    Rotate(s, q, Other(side), c, y, cy, b, x, cx, a);
  }

  /** Rotating the sibling away from the hole lifts its near child. */
  lemma RotateSibling(s: Store, p: Path, t: Tree, a: Tree, x: Node, cx: bool, b: Tree, y: Node, cy: bool, c: Tree)
    requires Place(s, p, t) && p.Step? && p.o == Pair(p.side, Pair(p.side, a, x, cx, b), y, cy, c)
    ensures CanRotate(s, Other(p.side), y, x, Ptr(s, b))
    ensures Place(Rotated(s, Other(p.side), y, x, Ptr(s, b)),
                  p.(o := Pair(p.side, a, x, cx, Pair(p.side, b, y, cy, c))), t)
  {
    Swap(s, p, t);
    var q := Step(p.up, Other(p.side), p.x, p.red, t);
    RotateAway(s, q, p.side, a, x, cx, b, y, cy, c);
    Swap(Rotated(s, Other(p.side), y, x, Ptr(s, b)), q, Pair(p.side, a, x, cx, Pair(p.side, b, y, cy, c)));
  }

  /** Taking stub `n` out: the subtree `t` that hung below it comes up. */
  lemma TakeOut(s: Store, p: Path, n: Node, t: Tree, was: Node?)
    requires Place(s, p, Stub(n)) && p.Step? && TreeOk(s, t, was) && n !in Nodes(t) && Nodes(t) !! PathNodes(p)
    ensures Ptr(s, t) in s.mem && p.x in s.mem
    ensures Place(Relinked(Adopted(s, Ptr(s, t), p.x), p.x, n, Ptr(s, t)), p, t)
  {
    TopInStore(s, t, was);
    TopIsNode(s, t);
    var s1 := Adopted(s, Ptr(s, t), p.x);
    var s2 := Relinked(s1, p.x, n, Ptr(s, t));
    assert p.x in PathNodes(p);
    AdoptRep(s, t, Ptr(s, t), was, p.x);
    SpineFrame(s, s1, p, n);
    RelinkSpine(s1, p, n, Ptr(s, t));
    RepFrame(s1, s2, t, Ptr(s, t), p.x);
  }
}
