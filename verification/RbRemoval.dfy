/** Taking a node out of a tree: the successor takes its place, and a stand-in the successor's. */
module RbRemoval {
  import opened RbShape
  import opened RbStore
  import opened RbRepair
  import opened Sequences

  /** `w`, continued upwards by `base`. */
  function Onto(w: Path, base: Path): Path {
    match w
    case Top => base
    case Step(up, side, x, red, o) => Step(Onto(up, base), side, x, red, o)
  }

  lemma {:induction false} PlugOnto(w: Path, base: Path, t: Tree)
    ensures Plug(Onto(w, base), t) == Plug(base, Plug(w, t))
  {
    if w.Step? { PlugOnto(w.up, base, Pair(w.side, t, w.x, w.red, w.o)); }
  }

  /** The way to the leftmost node. */
  predicate AllLeft(w: Path) {
    w.Top? || (w.side == L && AllLeft(w.up))
  }

  lemma {:induction false} BeforeOnto(w: Path, base: Path)
    requires AllLeft(w)
    ensures Before(Onto(w, base)) == Before(base) && Before(w) == []
    ensures After(Onto(w, base)) == After(w) + After(base)
  {
    if w.Step? {
      BeforeOnto(w.up, base);
      assert [w.x] + Inorder(w.o) + (After(w.up) + After(base)) == [w.x] + Inorder(w.o) + After(w.up) + After(base);
    }
  }

  /** Another node at the same place above changes no colours, and adds no stub. */
  lemma {:induction false} SameColours(w: Path, p: Path, side: Side, x: Node, y: Node, c: bool, o: Tree, h: int)
    ensures var q, r := Onto(w, Step(p, side, x, c, o)), Onto(w, Step(p, side, y, c, o));
      && (Around(q, h) <==> Around(r, h)) && (TakesRed(q) <==> TakesRed(r)) && (PathNoStub(q) <==> PathNoStub(r))
          && q.Step? && r.Step?
  {
    if w.Step? { SameColours(w.up, p, side, x, y, c, o, if w.red then h else h + 1); }
  }

  lemma {:induction false} NodesOnto(w: Path, base: Path)
    ensures PathNodes(Onto(w, base)) == PathNodes(w) + PathNodes(base)
  {
    if w.Step? { NodesOnto(w.up, base); }
  }

  lemma OntoStep(w: Path, base: Path)
    requires base.Step?
    ensures Onto(w, base).Step?
  {
  }

  // One node less

  function Without(xs: seq<Node>, x: Node): seq<Node> {
    if xs == [] then [] else (if xs[0] == x then [] else [xs[0]]) + Without(xs[1..], x)
  }

  lemma {:induction false} WithoutAbsent(xs: seq<Node>, x: Node)
    requires x !in xs
    ensures Without(xs, x) == xs
  {
    if xs != [] { WithoutAbsent(xs[1..], x); }
  }

  lemma {:induction false} WithoutMiddle(a: seq<Node>, x: Node, b: seq<Node>)
    requires x !in a && x !in b
    ensures Without(a + [x] + b, x) == a + b
  {
    if a == [] {
      assert ([] + [x] + b)[1..] == b;
      WithoutAbsent(b, x);
      assert [] + b == b;
    } else {
      assert (a + [x] + b)[1..] == a[1..] + [x] + b;
      WithoutMiddle(a[1..], x, b);
      assert [a[0]] + (a[1..] + b) == a + b;
    }
  }

  lemma {:induction false} InorderNodes(t: Tree)
    ensures forall x :: x in Inorder(t) <==> x in Nodes(t)
  {
    if t.Fork? {
      InorderNodes(t.l);
      InorderNodes(t.r);
    }
  }

  lemma {:induction false} AroundNodes(p: Path)
    ensures forall x :: x in Before(p) || x in After(p) <==> x in PathNodes(p)
  {
    if p.Step? {
      AroundNodes(p.up);
      InorderNodes(p.o);
    }
  }

  lemma Elsewhere(p: Path, u: Tree, x: Node)
    requires Apart(Plug(p, u)) && x in Nodes(u)
    ensures x !in Before(p) && x !in After(p) && Apart(u)
  {
    NodesPlug(p, u);
    AroundNodes(p);
  }

  lemma {:induction false} NotBelow(l: Tree, x: Node, red: bool, r: Tree)
    requires Apart(Fork(l, x, red, r))
    ensures x !in Inorder(l) && x !in Inorder(r) && x in Nodes(Fork(l, x, red, r))
  {
    InorderNodes(l);
    InorderNodes(r);
  }

  lemma Ungroup(a: seq<Node>, b: seq<Node>, m: seq<Node>, c: seq<Node>, d: seq<Node>)
    ensures a + (b + m + c) + d == (a + b) + m + (c + d)
    ensures (a + b) + (c + d) == a + (b + c) + d
  {
  }

  lemma NotInSum(a: seq<Node>, b: seq<Node>, x: Node)
    requires x !in a && x !in b
    ensures x !in a + b
  {
  }

  /** Removing the node between `b` and `c` from the whole. */
  lemma WithoutBetween(a: seq<Node>, b: seq<Node>, x: Node, c: seq<Node>, d: seq<Node>)
    requires x !in a && x !in b && x !in c && x !in d
    ensures Without(a + (b + [x] + c) + d, x) == a + (b + c) + d
  {
    Ungroup(a, b, [x], c, d);
    NotInSum(a, b, x);
    NotInSum(c, d, x);
    WithoutMiddle(a + b, x, c + d);
  }

  lemma TopGone(p: Path, l: Tree, x: Node, red: bool, r: Tree)
    requires Apart(Plug(p, Fork(l, x, red, r)))
    ensures Without(Inorder(Plug(p, Fork(l, x, red, r))), x) == Before(p) + (Inorder(l) + Inorder(r)) + After(p)
  {
    var u := Fork(l, x, red, r);
    Elsewhere(p, u, x);
    NotBelow(l, x, red, r);
    InorderPlug(p, u);
    WithoutBetween(Before(p), Inorder(l), x, Inorder(r), After(p));
  }

  /** A node with one child goes: only the child is left in its place. */
  lemma OneChildGone(p: Path, x: Node, red: bool, t: Tree, side: Side)
    requires Apart(Plug(p, Pair(side, t, x, red, Leaf)))
    ensures Before(p) + Inorder(t) + After(p) == Without(Inorder(Plug(p, Pair(side, t, x, red, Leaf))), x)
  {
    if side == L {
      TopGone(p, t, x, red, Leaf);
      assert Inorder(t) + Inorder(Leaf) == Inorder(t);
    } else {
      TopGone(p, Leaf, x, red, t);
      assert Inorder(Leaf) + Inorder(t) == Inorder(t);
    }
  }

  /** The successor `d` goes in the place of `x`, and its only child in its own. */
  lemma SuccessorMoved(p: Path, l: Tree, x: Node, red: bool, w: Path, d: Node, cd: bool, t: Tree)
    requires AllLeft(w) && Apart(Plug(p, Fork(l, x, red, Plug(w, Fork(Leaf, d, cd, t)))))
    ensures var q := Onto(w, Step(p, R, d, red, l));
      Before(q) + Inorder(t) + After(q) == Without(Inorder(Plug(p, Fork(l, x, red, Plug(w, Fork(Leaf, d, cd, t))))), x)
  {
    TopGone(p, l, x, red, Plug(w, Fork(Leaf, d, cd, t)));
    InorderPlug(w, Fork(Leaf, d, cd, t));
    BeforeOnto(w, Step(p, R, d, red, l));
    Regroup4(Before(p), Inorder(l), d, Inorder(t), After(w), After(p));
  }

  lemma Regroup4(a: seq<Node>, b: seq<Node>, x: Node, c: seq<Node>, d: seq<Node>, e: seq<Node>)
    ensures a + (b + ([] + ([] + [x] + c) + d)) + e == (a + b + [x]) + c + (d + e)
  {
    assert [] + ([] + [x] + c) + d == [x] + c + d;
  }

  // Keys

  /** The keys go up along the sequence. */
  ghost predicate Sorted(xs: seq<Node>, keys: map<Node, int>) {
    xs == [] || (xs[0] in keys && (forall y <- xs[1..] :: y in keys && keys[xs[0]] <= keys[y]) && Sorted(xs[1..], keys))
  }

  lemma {:induction false} SortedWithout(xs: seq<Node>, x: Node, keys: map<Node, int>, now: map<Node, int>)
    requires Sorted(xs, keys)
    requires forall y <- xs :: y != x && y in keys ==> y in now && now[y] == keys[y]
    ensures Sorted(Without(xs, x), now)
    ensures forall y <- Without(xs, x) :: y in xs && y != x
  {
    if xs != [] {
      SortedWithout(xs[1..], x, keys, now);
      var rest := Without(xs[1..], x);
      assert Without(xs, x) == if xs[0] == x then rest else [xs[0]] + rest;
      assert ([xs[0]] + rest)[1..] == rest;
    }
  }

  // In memory

  lemma {:induction false} RepInStore(s: Store, t: Tree, at: Node?, parent: Node?)
    requires Rep(s, t, at, parent)
    ensures Nodes(t) <= s.mem.Keys
  {
    if t.Fork? {
      RepInStore(s, t.l, s.mem[t.x].left, t.x);
      RepInStore(s, t.r, s.mem[t.x].right, t.x);
    }
  }

  lemma {:induction false} SpineInStore(s: Store, p: Path, at: Node?)
    requires Spine(s, p, at)
    ensures PathNodes(p) <= s.mem.Keys
  {
    if p.Step? {
      RepInStore(s, p.o, Child(s.mem[p.x], Other(p.side)), p.x);
      SpineInStore(s, p.up, p.x);
    }
  }

  /** The nodes of `xs`, which are not in the tree, are forgotten. */
  lemma Forget(s: Store, p: Path, t: Tree, xs: set<Node>)
    requires Place(s, p, t) && xs !! Nodes(t) && xs !! PathNodes(p) && s.nil !in xs
    ensures Place(s.(mem := s.mem - xs), p, t)
  {
    var s' := s.(mem := s.mem - xs);
    RepFrame(s, s', t, Ptr(s, t), Above(p));
    SpineFrame(s, s', p, Ptr(s, t));
  }

  lemma ForgetTree(s: Store, t: Tree, parent: Node?, xs: set<Node>)
    requires TreeOk(s, t, parent) && xs !! Nodes(t)
    ensures TreeOk(s.(mem := s.mem - xs), t, parent)
  {
    RepFrame(s, s.(mem := s.mem - xs), t, Ptr(s, t), parent);
  }

  /** The memory once `bak`, a copy of `d`, hangs in the place of `d`. */
  function BackedUp(s: Store, d: Node, bak: Node, parent: Node): Store
    requires d in s.mem && parent in s.mem
  {
    Relinked(s.(mem := s.mem[bak := s.mem[d]]), parent, d, bak)
  }

  lemma BackUpPlace(s: Store, p: Path, d: Node, u: Tree, bak: Node)
    requires Place(s, p, u) && p.Step? && u.Fork? && u.x == d && bak !in s.mem
    ensures d in s.mem && s.mem[d].parent == p.x && p.x in s.mem
    ensures Place(BackedUp(s, d, bak, p.x), p, Stub(bak)) && bak !in Nodes(u) && bak !in PathNodes(p)
  {
    RepInStore(s, u, d, Above(p));
    SpineInStore(s, p, d);
    assert p.x in PathNodes(p);
    var s1 := s.(mem := s.mem[bak := s.mem[d]]);
    SpineFrame(s, s1, p, d);
    RelinkSpine(s1, p, d, bak);
  }

  lemma BackUpRest(s: Store, p: Path, d: Node, u: Tree, bak: Node)
    requires Place(s, p, u) && p.Step? && u.Fork? && u.x == d && bak !in s.mem && p.x in s.mem && d in s.mem
    ensures var s' := BackedUp(s, d, bak, p.x);
      TreeOk(s', u.l, d) && TreeOk(s', u.r, d) && s'.mem[bak] == s.mem[d] && s'.mem[d] == s.mem[d]
      && s.mem[d].left == Ptr(s, u.l) && s.mem[d].right == Ptr(s, u.r) && s.mem[d].red == u.red
  {
    var s' := BackedUp(s, d, bak, p.x);
    RepInStore(s, u, d, Above(p));
    assert p.x in PathNodes(p);
    Split(s, L, u.l, d, u.red, u.r, Above(p));
    RepFrame(s, s', u.l, Ptr(s, u.l), d);
    RepFrame(s, s', u.r, Ptr(s, u.r), d);
  }

  /** The memory once `d` has taken over the links and colour of `x`. */
  function Succeeded(s: Store, x: Node, d: Node, l: Node, r: Node): Store
    requires x in s.mem && l in s.mem && r in s.mem && (s.mem[x].parent != null ==> s.mem[x].parent in s.mem)
  {
    Adopted(Adopted(Relinked(s.(mem := s.mem[d := s.mem[x]]), s.mem[x].parent, x, d), l, d), r, d)
  }

  lemma {:induction false} AdoptTree(s: Store, t: Tree, was: Node?, now: Node?)
    requires TreeOk(s, t, was) && s.nil in s.mem
    ensures Ptr(s, t) in s.mem && TreeOk(Adopted(s, Ptr(s, t), now), t, now)
  {
    TopInStore(s, t, was);
    AdoptRep(s, t, Ptr(s, t), was, now);
  }

  lemma TreeFrame(s: Store, s': Store, t: Tree, parent: Node?)
    requires TreeOk(s, t, parent) && Agree(s, s', Nodes(t))
    ensures TreeOk(s', t, parent)
  {
    RepFrame(s, s', t, Ptr(s, t), parent);
  }

  /** First `d` is linked from above instead of `x`. */
  lemma SucceedAbove(s: Store, p: Path, l: Tree, x: Node, red: bool, r: Tree, d: Node, s2: Store)
    requires Place(s, p, Fork(l, x, red, r)) && d in s.mem && d !in PathNodes(p) && d !in Nodes(Fork(l, x, red, r))
    requires d != s.nil
    requires x in s.mem && (Above(p) != null ==> Above(p) in s.mem)
    requires s2 == Relinked(s.(mem := s.mem[d := s.mem[x]]), Above(p), x, d)
    ensures PathOk(s2, p, d) && TreeOk(s2, l, x) && TreeOk(s2, r, x) && s2.mem[d] == s.mem[x] && s2.nil == s.nil
    ensures s2.nil in s2.mem
  {
    var s1 := s.(mem := s.mem[d := s.mem[x]]);
    SpineFrame(s, s1, p, x);
    RelinkSpine(s1, p, x, d);
    AboveOnPath(p);
    Split(s, L, l, x, red, r, Above(p));
    TreeFrame(s, s2, l, x);
    TreeFrame(s, s2, r, x);
  }

  /** Then the children of `x` get `d` as their parent. */
  lemma SucceedBelow(s2: Store, p: Path, l: Tree, x: Node, red: bool, r: Tree, d: Node)
    requires PathOk(s2, p, d) && TreeOk(s2, l, x) && TreeOk(s2, r, x) && d in s2.mem && d != s2.nil
    requires d !in PathNodes(p)
    requires s2.mem[d] == Cell(Ptr(s2, l), Ptr(s2, r), Above(p), red)
    requires d !in Nodes(l) && d !in Nodes(r) && Nodes(l) !! Nodes(r) && Nodes(l) !! PathNodes(p)
    requires Nodes(r) !! PathNodes(p)
    ensures Ptr(s2, l) in s2.mem && Ptr(s2, r) in s2.mem
    ensures Place(Adopted(Adopted(s2, Ptr(s2, l), d), Ptr(s2, r), d), p, Fork(l, d, red, r))
  {
    AdoptTree(s2, l, x, d);
    var s3 := Adopted(s2, Ptr(s2, l), d);
    TopIsNode(s2, l);
    TreeFrame(s2, s3, r, x);
    SpineFrame(s2, s3, p, d);
    AdoptTree(s3, r, x, d);
    TopIsNode(s3, r);
    var s4 := Adopted(s3, Ptr(s3, r), d);
    TreeFrame(s3, s4, l, d);
    SpineFrame(s3, s4, p, d);
    Build(s4, p, L, l, d, red, r);
  }

  /** The successor is in the place of `x`. */
  lemma Succeed(s: Store, p: Path, l: Tree, x: Node, red: bool, r: Tree, d: Node)
    requires Place(s, p, Fork(l, x, red, r)) && d in s.mem && d !in PathNodes(p) && d !in Nodes(Fork(l, x, red, r))
    requires d != s.nil
    ensures x in s.mem && s.mem[x] == Cell(Ptr(s, l), Ptr(s, r), Above(p), red)
    ensures Above(p) != null ==> Above(p) in s.mem
    ensures Ptr(s, l) in s.mem && Ptr(s, r) in s.mem
    ensures Place(Succeeded(s, x, d, Ptr(s, l), Ptr(s, r)), p, Fork(l, d, red, r))
  {
    Open(s, p, L, l, x, red, r);
    AboveInStore(s, p, x);
    var s2 := Relinked(s.(mem := s.mem[d := s.mem[x]]), Above(p), x, d);
    SucceedAbove(s, p, l, x, red, r, d, s2);
    SucceedParts(s, p, l, x, red, r, d);
    SucceedBelow(s2, p, l, x, red, r, d);
  }

  lemma SucceedParts(s: Store, p: Path, l: Tree, x: Node, red: bool, r: Tree, d: Node)
    requires Place(s, p, Fork(l, x, red, r)) && d !in Nodes(Fork(l, x, red, r))
    ensures d !in Nodes(l) && d !in Nodes(r) && Nodes(l) !! Nodes(r) && Nodes(l) !! PathNodes(p)
    ensures Nodes(r) !! PathNodes(p)
    ensures x in s.mem && Ptr(s, l) in s.mem && Ptr(s, r) in s.mem
  {
    Split(s, L, l, x, red, r, Above(p));
    TopInStore(s, l, x);
    TopInStore(s, r, x);
  }

  /** Linking the stand-in's parent early changes nothing in the end. */
  lemma LinkedEarly(s: Store, x: Node, d: Node, l: Node, r: Node)
    requires x in s.mem && l in s.mem && r in s.mem && d in s.mem
    requires s.mem[x].parent != null ==> s.mem[x].parent in s.mem
    requires r != s.mem[x].parent && r != l && r != d && r != x && r != s.nil
    ensures var s1 := SetParent(s.(mem := s.mem[d := s.mem[x]]), r, d);
      Adopted(Adopted(Relinked(s1, s.mem[x].parent, x, d), l, d), r, d) == Succeeded(s, x, d, l, r)
  {
    var s0 := s.(mem := s.mem[d := s.mem[x]]);
    EarlyRelink(s0, s.mem[x].parent, x, d, r);
    var b := Relinked(s0, s.mem[x].parent, x, d);
    EarlyAdopt(b, l, d, r);
    EarlyTwice(Adopted(b, l, d), d, r);
  }

  lemma EarlyRelink(s: Store, p: Node?, x: Node, d: Node, r: Node)
    requires r in s.mem && r != p && (p != null ==> p in s.mem)
    ensures Relinked(SetParent(s, r, d), p, x, d) == SetParent(Relinked(s, p, x, d), r, d)
  {
    assert Relinked(SetParent(s, r, d), p, x, d).mem == SetParent(Relinked(s, p, x, d), r, d).mem;
  }

  lemma EarlyAdopt(s: Store, l: Node, d: Node, r: Node)
    requires r in s.mem && l in s.mem && r != l
    ensures Adopted(SetParent(s, r, d), l, d) == SetParent(Adopted(s, l, d), r, d)
  {
    assert Adopted(SetParent(s, r, d), l, d).mem == SetParent(Adopted(s, l, d), r, d).mem;
  }

  lemma EarlyTwice(s: Store, d: Node, r: Node)
    requires r in s.mem && r != s.nil
    ensures Adopted(SetParent(s, r, d), r, d) == Adopted(s, r, d)
  {
    assert Adopted(SetParent(s, r, d), r, d).mem == Adopted(s, r, d).mem;
  }

  lemma SucceededOff(s: Store, p: Path, l: Tree, x: Node, red: bool, r: Tree, d: Node)
    requires Place(s, p, Fork(l, x, red, r)) && d in s.mem && x in s.mem && s.mem[x].parent == Above(p)
    requires Above(p) != null ==> Above(p) in s.mem
    requires Ptr(s, l) in s.mem && Ptr(s, r) in s.mem
    ensures SameOff(s, Succeeded(s, x, d, Ptr(s, l), Ptr(s, r)), {d} + PathNodes(p) + Nodes(l) + Nodes(r))
  {
    var xs := {d} + PathNodes(p) + Nodes(l) + Nodes(r);
    AboveOnPath(p);
    TopIsNode(s, l);
    TopIsNode(s, r);
    var s1 := s.(mem := s.mem[d := s.mem[x]]);
    var s2 := Relinked(s1, Above(p), x, d);
    assert SameOff(s, s1, xs) && SameOff(s1, s2, xs);
    OffThen(s, s1, s2, xs);
    var s3 := Adopted(s2, Ptr(s, l), d);
    assert SameOff(s2, s3, xs);
    OffThen(s, s2, s3, xs);
    var s4 := Adopted(s3, Ptr(s, r), d);
    assert SameOff(s3, s4, xs);
    OffThen(s, s3, s4, xs);
  }

  lemma {:induction false} NoStubPlug(p: Path, t: Tree)
    ensures NoStub(Plug(p, t)) <==> NoStub(t) && PathNoStub(p)
  {
    if p.Step? { NoStubPlug(p.up, Pair(p.side, t, p.x, p.red, p.o)); }
  }

  /** What is known about a node with at most one child, and what is around it. */
  lemma OneChildShape(p: Path, side: Side, t: Tree, d: Node, red: bool)
    requires var u := Plug(p, Pair(side, t, d, red, Leaf)); RedBlack(u) && !Red(u) && NoStub(u)
    ensures RedBlack(t) && Blacks(t) == 0 && NoStub(t) && PathNoStub(p)
    ensures red ==> t.Leaf?
    ensures Around(p, if red then 0 else 1)
  {
    RedBlackPlug(p, Pair(side, t, d, red, Leaf));
    NoStubPlug(p, Pair(side, t, d, red, Leaf));
  }

  /** The stand-in `bak` is in the tree, the child `t` it had is not, and one black node may be missing. */
  ghost predicate Held(s: Store, p: Path, bak: Node, t: Tree, was: Node?, red: bool) {
    && Place(s, p, Stub(bak)) && p.Step? && bak in s.mem
    && TreeOk(s, t, was) && bak !in Nodes(t) && Nodes(t) !! PathNodes(p)
    && ((s.mem[bak].left == Ptr(s, t) && s.mem[bak].right == s.nil)
        || (s.mem[bak].left == s.nil && s.mem[bak].right == Ptr(s, t)))
    && RedBlack(t) && Blacks(t) == 0 && NoStub(t) && PathNoStub(p) && (red ==> t.Leaf?)
        && Around(p, if red then 0 else 1)
  }

  /** A node is the root exactly when nothing is above it. */
  lemma {:induction false} RootIs(s: Store, p: Path, n: Node)
    requires Spine(s, p, n) && n !in PathNodes(p)
    ensures s.root == n <==> p.Top?
    ensures p.Step? ==> s.root in PathNodes(p)
  {
    if p.Step? { RootOnPath(s, p, n); }
  }

  lemma {:induction false} RootOnPath(s: Store, p: Path, n: Node)
    requires Spine(s, p, n) && p.Step?
    ensures s.root in PathNodes(p)
  {
    if p.up.Step? { RootOnPath(s, p.up, p.x); }
  }

  /** The links written by a replacement are those of different nodes. */
  lemma LinkedApart(s: Store, p: Path, l: Tree, x: Node, red: bool, r: Tree, d: Node)
    requires Place(s, p, Fork(l, x, red, r)) && d !in PathNodes(p) && d !in Nodes(Fork(l, x, red, r)) && !r.Leaf?
    ensures var b := Ptr(s, r); b != Above(p) && b != Ptr(s, l) && b != d && b != x && b != s.nil
  {
    Split(s, L, l, x, red, r, Above(p));
    AboveOnPath(p);
    TopIsNode(s, l);
    assert Ptr(s, r) in Nodes(r);
  }

  /** The tree below `x`, seen from `x` and from a place on the left edge below its right child. */
  lemma Descend(s: Store, p: Path, l: Tree, x: Node, red: bool, w: Path, u: Tree)
    requires Place(s, p, Fork(l, x, red, Plug(w, u)))
    ensures Place(s, Onto(w, Step(p, R, x, red, l)), u)
  {
    ZipUp(s, p, Fork(l, x, red, Plug(w, u)));
    PlugOnto(w, Step(p, R, x, red, l), u);
    ZipDown(s, Onto(w, Step(p, R, x, red, l)), u);
  }

  lemma Ascend(s: Store, p: Path, l: Tree, x: Node, red: bool, w: Path, u: Tree)
    requires Place(s, Onto(w, Step(p, R, x, red, l)), u)
    ensures Place(s, p, Fork(l, x, red, Plug(w, u)))
  {
    ZipUp(s, Onto(w, Step(p, R, x, red, l)), u);
    PlugOnto(w, Step(p, R, x, red, l), u);
    ZipDown(s, p, Fork(l, x, red, Plug(w, u)));
  }

  lemma {:induction false} AwayFrom(s: Store, p: Path, l: Tree, x: Node, red: bool, w: Path, u: Tree, b: Node)
    requires Place(s, Onto(w, Step(p, R, x, red, l)), u) && b !in Nodes(u)
    ensures Nodes(u) !! PathNodes(p) && Nodes(u) !! Nodes(Fork(l, x, red, Plug(w, Stub(b))))
    ensures b in Nodes(Plug(w, Stub(b))) && !Plug(w, Stub(b)).Leaf?
  {
    NodesOnto(w, Step(p, R, x, red, l));
    NodesPlug(w, Stub(b));
  }

  lemma ChildrenKept(s: Store, p: Path, l: Tree, x: Node, red: bool, r: Tree, d: Node, b: Node)
    requires Place(s, p, Fork(l, x, red, r)) && d in s.mem && x in s.mem && s.mem[x].parent == Above(p)
    requires Above(p) != null ==> Above(p) in s.mem
    requires Ptr(s, l) in s.mem && Ptr(s, r) in s.mem && b in Nodes(r) && b in s.mem && b != d
    ensures var s' := Succeeded(s, x, d, Ptr(s, l), Ptr(s, r));
      b in s'.mem && s'.mem[b].left == s.mem[b].left && s'.mem[b].right == s.mem[b].right
  {
    AboveOnPath(p);
  }

  lemma SuccessorShape(p: Path, l: Tree, x: Node, c: bool, w: Path, d: Node, red: bool, t: Tree)
    requires var v := Plug(p, Fork(l, x, c, Plug(w, Fork(Leaf, d, red, t)))); RedBlack(v) && !Red(v) && NoStub(v)
    ensures RedBlack(t) && Blacks(t) == 0 && NoStub(t) && (red ==> t.Leaf?)
    ensures var q := Onto(w, Step(p, R, d, c, l)); q.Step? && PathNoStub(q) && Around(q, if red then 0 else 1)
  {
    var q := Onto(w, Step(p, R, x, c, l));
    PlugOnto(w, Step(p, R, x, c, l), Fork(Leaf, d, red, t));
    OneChildShape(q, R, t, d, red);
    SameColours(w, p, R, x, d, c, l, if red then 0 else 1);
  }

  /** The nodes below the successor stay below its stand-in. */
  lemma ChildHeld(s: Store, s': Store, p: Path, l: Tree, d: Node, c: bool, w: Path, bak: Node, t: Tree)
    requires Place(s', p, Fork(l, d, c, Plug(w, Stub(bak)))) && TreeOk(s, t, d)
    requires SameOff(s, s', {d} + PathNodes(p) + Nodes(l) + Nodes(Plug(w, Stub(bak))))
    requires d !in Nodes(t) && Nodes(t) !! PathNodes(p) && Nodes(t) !! Nodes(l) && Nodes(t) !! Nodes(Plug(w, Stub(bak)))
    ensures var q := Onto(w, Step(p, R, d, c, l));
      Place(s', q, Stub(bak)) && TreeOk(s', t, d) && bak !in Nodes(t) && Nodes(t) !! PathNodes(q)
  {
    Descend(s', p, l, d, c, w, Stub(bak));
    NodesOnto(w, Step(p, R, d, c, l));
    NodesPlug(w, Stub(bak));
    TreeFrame(s, s', t, d);
  }

  lemma ForgetHeld(s: Store, p: Path, bak: Node, t: Tree, was: Node?, red: bool, x: Node)
    requires Held(s, p, bak, t, was, red) && x != bak && x !in Nodes(t) && x !in PathNodes(p) && x != s.nil
    ensures Held(s.(mem := s.mem - {x}), p, bak, t, was, red)
  {
    Forget(s, p, Stub(bak), {x});
    ForgetTree(s, t, was, {x});
  }

  /** A red child turns black while the stand-in is still in the tree. */
  lemma BlackenHeld(s: Store, p: Path, bak: Node, t: Tree, was: Node?)
    requires Held(s, p, bak, t, was, false) && t.Fork?
    ensures t.x in s.mem && t.red
    ensures var u := Fork(t.l, t.x, false, t.r); var s' := SetRed(s, t.x, false);
      Place(s', p, Stub(bak)) && TreeOk(s', u, was) && Ptr(s', u) == t.x && bak in s'.mem && s'.mem[bak] == s.mem[bak]
  {
    var s', u := SetRed(s, t.x, false), Fork(t.l, t.x, false, t.r);
    Split(s, L, t.l, t.x, t.red, t.r, was);
    assert t.x in Nodes(t);
    TreeFrame(s, s', t.l, t.x);
    TreeFrame(s, s', t.r, t.x);
    SpineFrame(s, s', p, bak);
    Join(s', L, t.l, t.x, false, t.r, was);
  }

  /** A finished place: the whole tree is red-black. */
  ghost predicate Settled(q: Path, u: Tree) {
    RedBlack(u) && !Red(u) && NoStub(u) && PathNoStub(q) && Around(q, Blacks(u))
  }

  // The nodes of a sequence

  ghost function SetOf(xs: seq<Node>): set<Node> {
    set x | x in xs
  }

  lemma InorderSet(t: Tree)
    ensures SetOf(Inorder(t)) == Nodes(t)
  {
    InorderNodes(t);
  }

  lemma {:induction false} AroundSet(p: Path)
    ensures SetOf(Before(p)) + SetOf(After(p)) == PathNodes(p)
  {
    if p.Step? {
      AroundSet(p.up);
      InorderSet(p.o);
      SetOfSum(Before(p.up) + Inorder(p.o), [p.x]);
      SetOfSum(Before(p.up), Inorder(p.o));
      SetOfSum([p.x] + Inorder(p.o), After(p.up));
      SetOfSum([p.x], Inorder(p.o));
      assert SetOf([p.x]) == {p.x};
    } else {
      assert SetOf([]) == {};
    }
  }

  lemma SetOfSum(a: seq<Node>, b: seq<Node>)
    ensures SetOf(a + b) == SetOf(a) + SetOf(b)
  {
  }

  lemma SpanSet(p: Path, t: Tree)
    ensures SetOf(Before(p) + Inorder(t) + After(p)) == Nodes(t) + PathNodes(p)
  {
    SetOfSum(Before(p) + Inorder(t), After(p));
    SetOfSum(Before(p), Inorder(t));
    InorderSet(t);
    AroundSet(p);
  }

  lemma {:induction false} WithoutSet(xs: seq<Node>, x: Node)
    ensures SetOf(Without(xs, x)) == SetOf(xs) - {x}
  {
    if xs == [] {
      assert SetOf(xs) == {};
    } else {
      WithoutSet(xs[1..], x);
      SetOfSum([xs[0]], xs[1..]);
      assert [xs[0]] + xs[1..] == xs && SetOf([xs[0]]) == {xs[0]};
      SetOfSum(if xs[0] == x then [] else [xs[0]], Without(xs[1..], x));
    }
  }

  /** The tree in memory is the red-black tree `t`, with `above` as its root's parent. */
  ghost predicate Settles(s: Store, t: Tree, above: Node?) {
    s.root == Ptr(s, t) && TreeOk(s, t, above) && s.nil in s.mem && !s.mem[s.nil].red && RedBlack(t) && !Red(t)
        && NoStub(t)
  }

  /** The root goes, and its only child, painted black, is the new root; but the child keeps its parent. */
  lemma RootGone(s: Store, side: Side, t: Tree, x: Node, c: bool)
    requires var u := Pair(side, t, x, c, Leaf); Place(s, Top, u) && RedBlack(u) && NoStub(u)
    ensures Ptr(s, t) in s.mem && x in s.mem && x != s.nil && x !in Nodes(t)
    ensures var s1 := SetRed(s.(root := Ptr(s, t)), Ptr(s, t), false);
      Settles(s1.(mem := s1.mem - {x}), Blackened(t), if t.Leaf? then null else x)
    ensures Inorder(Blackened(t)) == Inorder(t) && Nodes(Blackened(t)) == Nodes(t)
  {
    Split(s, side, t, x, c, Leaf, null);
    TopInStore(s, t, x);
    var s1 := SetRed(s.(root := Ptr(s, t)), Ptr(s, t), false);
    var s', u := s1.(mem := s1.mem - {x}), Blackened(t);
    if t.Fork? {
      Split(s, L, t.l, t.x, t.red, t.r, x);
      TreeFrame(s, s', t.l, t.x);
      TreeFrame(s, s', t.r, t.x);
      Join(s', L, t.l, t.x, false, t.r, x);
    }
  }

  function Blackened(t: Tree): Tree {
    if t.Fork? then Fork(t.l, t.x, false, t.r) else t
  }

  lemma RootGoneOrder(side: Side, t: Tree, x: Node, c: bool)
    requires Apart(Pair(side, t, x, c, Leaf))
    ensures Inorder(Blackened(t)) == Without(Inorder(Pair(side, t, x, c, Leaf)), x) && Nodes(Blackened(t)) == Nodes(t)
  {
    OneChildGone(Top, x, c, t, side);
    assert [] + Inorder(t) + [] == Inorder(t);
  }

  lemma RootGoneNodes(side: Side, t: Tree, x: Node, c: bool)
    requires Apart(Pair(side, t, x, c, Leaf))
    ensures Nodes(Pair(side, t, x, c, Leaf)) == Nodes(t) + {x} && x !in Nodes(t)
  {
  }

  /** What a node's removal needs to know about the nodes involved. */
  lemma GoneFrom(q: Path, t: Tree, t0: Tree, node: Node)
    requires Before(q) + Inorder(t) + After(q) == Without(Inorder(t0), node)
    ensures Nodes(t) + PathNodes(q) == Nodes(t0) - {node}
  {
    SpanSet(q, t);
    WithoutSet(Inorder(t0), node);
    InorderSet(t0);
  }

  /** A finished place makes a whole tree. */
  lemma SettledTree(s: Store, v: Path, w: Tree, q: Path, t: Tree)
    requires Place(s, v, w) && Settled(v, w)
    requires Before(v) == Before(q) && After(v) == After(q) && Inorder(w) == Inorder(t)
    ensures Settles(s, Plug(v, w), null) && Nodes(Plug(v, w)) == Nodes(t) + PathNodes(q)
    ensures Inorder(Plug(v, w)) == Before(q) + Inorder(t) + After(q)
  {
    ZipUp(s, v, w);
    RedBlackPlug(v, w);
    NoStubPlug(v, w);
    InorderPlug(v, w);
    NodesPlug(v, w);
    SpanSet(v, w);
    SpanSet(q, t);
  }

  lemma ForgetSettled(s: Store, t: Tree, above: Node?, xs: set<Node>)
    requires Settles(s, t, above) && xs !! Nodes(t) && s.nil !in xs
    ensures Settles(s.(mem := s.mem - xs), t, above)
  {
    ForgetTree(s, t, above, xs);
  }

  lemma RestSet(t: Tree, u: Tree, x: Node)
    requires Inorder(u) == Without(Inorder(t), x)
    ensures Nodes(u) == Nodes(t) - {x}
  {
    InorderSet(t);
    InorderSet(u);
    WithoutSet(Inorder(t), x);
  }

  // Successors

  /** The successor is the first node to the right, below or above. */
  lemma NextIsFirst(p: Path, l: Tree, x: Node, c: bool, r: Tree)
    ensures var xs, i := Inorder(Plug(p, Fork(l, x, c, r))), |Before(p)| + |Inorder(l)|;
      i < |xs| && xs[i] == x && NextAt<Node?>(xs, i, null) == First<Node?>(Inorder(r) + After(p), null)
  {
    InorderPlug(p, Fork(l, x, c, r));
    NextInMiddle<Node?>(Before(p), Inorder(l), x, Inorder(r), After(p), null);
  }

  lemma FirstAfter(p: Path, w: Path, d: Node, red: bool, s: Tree)
    requires AllLeft(w)
    ensures First<Node?>(Inorder(Plug(w, Fork(Leaf, d, red, s))) + After(p), null) == d
  {
    InorderPlug(w, Fork(Leaf, d, red, s));
    BeforeOnto(w, Top);
  }

  lemma ClimbSide(s: Store, p: Path, u: Tree)
    requires Place(s, p, u) && p.Step? && u.Fork?
    ensures p.x in s.mem && (u.x == s.mem[p.x].left <==> p.side == L) && s.mem[u.x].parent == p.x
  {
    Close(s, p, u);
    Split(s, p.side, u, p.x, p.red, p.o, Above(p.up));
    TopIsNode(s, p.o);
  }
}
