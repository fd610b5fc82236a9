/** AVL insertion on trees as values: what the pointer code computes, and why it stays balanced. */
module AvlShape {

  class Node {
    const key: int
    var height: nat
    var left: Node?
    var right: Node?
    var parent: Node?

    constructor (key: int)
      ensures this.key == key
    {
      this.key, height, left, right, parent := key, 0, null, null, null;
    }
  }

  /** A tree with the height stored in each node. */
  datatype Tree = Leaf | Fork(l: Tree, x: Node, h: nat, r: Tree)

  function H(t: Tree): nat {
    if t.Leaf? then 0 else t.h
  }

  function Max(a: nat, b: nat): nat {
    if a > b then a else b
  }

  /** A node with the height its subtrees call for. */
  function Make(l: Tree, x: Node, r: Tree): Tree {
    Fork(l, x, 1 + Max(H(l), H(r)), r)
  }

  function Inorder(t: Tree): seq<Node> {
    match t
    case Leaf => []
    case Fork(l, x, _, r) => Inorder(l) + [x] + Inorder(r)
  }

  ghost function Nodes(t: Tree): set<Node> {
    match t
    case Leaf => {}
    case Fork(l, x, _, r) => Nodes(l) + {x} + Nodes(r)
  }

  ghost predicate Apart(t: Tree) {
    t.Fork? ==> t.x !in Nodes(t.l) && t.x !in Nodes(t.r) && Nodes(t.l) !! Nodes(t.r) && Apart(t.l) && Apart(t.r)
  }

  /** Stored heights are exact, and siblings differ by at most one. */
  predicate Avl(t: Tree) {
    t.Fork? ==> t.h == 1 + Max(H(t.l), H(t.r)) && H(t.l) <= H(t.r) + 1 && H(t.r) <= H(t.l) + 1 && Avl(t.l) && Avl(t.r)
  }

  /** All keys are between two bounds, where there are any, and in order. */
  ghost predicate Ordered(t: Tree, lo: Bound, hi: Bound) {
    t.Fork? ==> lo.Under(t.x.key) && hi.Over(t.x.key) && Ordered(t.l, lo, At(t.x.key)) && Ordered(t.r, At(t.x.key), hi)
  }

  datatype Bound = None | At(k: int) {
    predicate Under(key: int) {
      this.At? ==> k < key
    }

    predicate Over(key: int) {
      this.At? ==> key < k
    }
  }

  /** A search for the key, going left or right at every node, finds it. */
  predicate Has(t: Tree, key: int) {
    t.Fork? && (key == t.x.key || if key < t.x.key then Has(t.l, key) else Has(t.r, key))
  }

  // Rotations

  function RotateRight(t: Tree): Tree
    requires t.Fork? && t.l.Fork?
  {
    Make(t.l.l, t.l.x, Make(t.l.r, t.x, t.r))
  }

  function RotateLeft(t: Tree): Tree
    requires t.Fork? && t.r.Fork?
  {
    Make(Make(t.l, t.x, t.r.l), t.r.x, t.r.r)
  }

  /** The balance of a node whose height has just been set; both sides are there where they are looked at. */
  predicate Repairable(t: Tree, key: int) {
    && t.Fork?
    && (H(t.l) > H(t.r) + 1 ==> t.l.Fork? && (key > t.l.x.key ==> t.l.r.Fork?))
    && (H(t.r) > H(t.l) + 1 ==> t.r.Fork? && (key < t.r.x.key ==> t.r.l.Fork?))
  }

  /** dl_bstree_insert_repair: the four cases. */
  function Repair(t: Tree, key: int): Tree
    requires Repairable(t, key)
  {
    var u := Make(t.l, t.x, t.r);
    if H(u.l) > H(u.r) + 1 && key < u.l.x.key then RotateRight(u)
    else if H(u.r) > H(u.l) + 1 && key > u.r.x.key then RotateLeft(u)
    else if H(u.l) > H(u.r) + 1 && key > u.l.x.key then RotateRight(Fork(RotateLeft(u.l), u.x, u.h, u.r))
    else if H(u.r) > H(u.l) + 1 && key < u.r.x.key then RotateLeft(Fork(u.l, u.x, u.h, RotateRight(u.r)))
    else u
  }

  /** dl_bstree_insert_value, for a key that is not in the tree. */
  function Inserted(t: Tree, n: Node): (u: Tree)
    requires Avl(t) && !Has(t, n.key)
    ensures Avl(u) && Grown(t, u, n.key)
  {
    if t.Leaf? then Fork(Leaf, n, 1, Leaf)
    else if n.key < t.x.key then
      var v := Fork(Inserted(t.l, n), t.x, t.h, t.r);
      RepairLeft(t, v, n.key);
      Repair(v, n.key)
    else
      var v := Fork(t.l, t.x, t.h, Inserted(t.r, n));
      RepairRight(t, v, n.key);
      Repair(v, n.key)
  }

  /** An insertion adds at most one to the height; when it does, the side of the new key is the higher one. */
  predicate Grown(t: Tree, u: Tree, key: int) {
    && u.Fork? && H(t) <= H(u) <= H(t) + 1
    && (t.Leaf? ==> H(u) == 1 && u.l.Leaf? && u.r.Leaf? && u.x.key == key)
    && (t.Fork? && H(u) == H(t) + 1 ==>
         && u.x == t.x && (key < t.x.key ==> H(u.l) == H(u.r) + 1 && u.l.Fork?)
             && (key > t.x.key ==> H(u.r) == H(u.l) + 1 && u.r.Fork?))
  }

  lemma RepairLeft(t: Tree, v: Tree, key: int)
    requires Avl(t) && t.Fork? && key < t.x.key && v.Fork? && v.x == t.x && v.r == t.r && Avl(v.l)
    requires Grown(t.l, v.l, key) && !Has(t, key)
    ensures Repairable(v, key) && Avl(Repair(v, key)) && Grown(t, Repair(v, key), key)
  {
  }

  lemma RepairRight(t: Tree, v: Tree, key: int)
    requires Avl(t) && t.Fork? && key > t.x.key && v.Fork? && v.x == t.x && v.l == t.l && Avl(v.r)
    requires Grown(t.r, v.r, key) && !Has(t, key)
    ensures Repairable(v, key) && Avl(Repair(v, key)) && Grown(t, Repair(v, key), key)
  {
  }

  // Order and contents

  /** `n` in its place among nodes in ascending order. */
  function Placed(xs: seq<Node>, n: Node): seq<Node> {
    if xs == [] then [n] else if n.key < xs[0].key then [n] + xs else [xs[0]] + Placed(xs[1..], n)
  }

  lemma {:induction false} PlacedLeft(a: seq<Node>, x: Node, b: seq<Node>, n: Node)
    requires n.key < x.key
    ensures Placed(a + [x] + b, n) == Placed(a, n) + [x] + b
  {
    var xs := a + [x] + b;
    if a == [] {
      assert xs == [x] + b;
      assert [n] + xs == [n] + [x] + b;
    } else {
      assert xs[1..] == a[1..] + [x] + b;
      if n.key < a[0].key {
        assert [n] + xs == [n] + a + [x] + b;
      } else {
        PlacedLeft(a[1..], x, b, n);
        assert [a[0]] + (Placed(a[1..], n) + [x] + b) == ([a[0]] + Placed(a[1..], n)) + [x] + b;
      }
    }
  }

  lemma {:induction false} PlacedRight(a: seq<Node>, x: Node, b: seq<Node>, n: Node)
    requires x.key < n.key && forall y <- a :: y.key < n.key
    ensures Placed(a + [x] + b, n) == a + [x] + Placed(b, n)
  {
    var xs := a + [x] + b;
    if a == [] {
      assert xs == [x] + b && xs[1..] == b;
      assert [] + [x] + Placed(b, n) == [x] + Placed(b, n);
    } else {
      assert xs[1..] == a[1..] + [x] + b && xs[0] == a[0] && a[0] in a;
      PlacedRight(a[1..], x, b, n);
      assert [a[0]] + (a[1..] + [x] + Placed(b, n)) == a + [x] + Placed(b, n);
    }
  }

  lemma Regroup(a: seq<Node>, x: Node, b: seq<Node>, y: Node, c: seq<Node>)
    ensures (a + [x] + b) + [y] + c == a + [x] + (b + [y] + c)
  {
  }

  /** Repairs keep the nodes in order. */
  lemma RepairInorder(t: Tree, key: int)
    requires Repairable(t, key)
    ensures Inorder(Repair(t, key)) == Inorder(t) && Nodes(Repair(t, key)) == Nodes(t)
  {
    var u := Make(t.l, t.x, t.r);
    if H(u.l) > H(u.r) + 1 {
      RotateRightInorder(u);
      if key > u.l.x.key {
        RotateLeftInorder(u.l);
        RotateRightInorder(Fork(RotateLeft(u.l), u.x, u.h, u.r));
      }
    }
    if H(u.r) > H(u.l) + 1 {
      RotateLeftInorder(u);
      if key < u.r.x.key {
        RotateRightInorder(u.r);
        RotateLeftInorder(Fork(u.l, u.x, u.h, RotateRight(u.r)));
      }
    }
  }

  lemma RotateRightInorder(t: Tree)
    requires t.Fork? && t.l.Fork?
    ensures Inorder(RotateRight(t)) == Inorder(t) && Nodes(RotateRight(t)) == Nodes(t)
  {
    Regroup(Inorder(t.l.l), t.l.x, Inorder(t.l.r), t.x, Inorder(t.r));
  }

  lemma RotateLeftInorder(t: Tree)
    requires t.Fork? && t.r.Fork?
    ensures Inorder(RotateLeft(t)) == Inorder(t) && Nodes(RotateLeft(t)) == Nodes(t)
  {
    Regroup(Inorder(t.l), t.x, Inorder(t.r.l), t.r.x, Inorder(t.r.r));
  }

  lemma {:induction false} KeysUnder(t: Tree, lo: Bound, hi: Bound)
    requires Ordered(t, lo, hi)
    ensures forall y <- Inorder(t) :: lo.Under(y.key) && hi.Over(y.key)
  {
    if t.Fork? {
      KeysUnder(t.l, lo, At(t.x.key));
      KeysUnder(t.r, At(t.x.key), hi);
    }
  }

  /** The insertion puts exactly the new node in its place, and leaves the others in order. */
  lemma {:induction false} InsertInorder(t: Tree, n: Node, lo: Bound, hi: Bound)
    requires Avl(t) && Ordered(t, lo, hi) && !Has(t, n.key)
    ensures Inorder(Inserted(t, n)) == Placed(Inorder(t), n) && Nodes(Inserted(t, n)) == Nodes(t) + {n}
  {
    if t.Fork? {
      if n.key < t.x.key {
        var v := Fork(Inserted(t.l, n), t.x, t.h, t.r);
        InsertInorder(t.l, n, lo, At(t.x.key));
        RepairLeft(t, v, n.key);
        RepairInorder(v, n.key);
        PlacedLeft(Inorder(t.l), t.x, Inorder(t.r), n);
      } else {
        var v := Fork(t.l, t.x, t.h, Inserted(t.r, n));
        InsertInorder(t.r, n, At(t.x.key), hi);
        RepairRight(t, v, n.key);
        RepairInorder(v, n.key);
        KeysUnder(t.l, lo, At(t.x.key));
        PlacedRight(Inorder(t.l), t.x, Inorder(t.r), n);
      }
    }
  }

  /** Ascending keys all along. */
  ghost predicate Ascending(xs: seq<Node>) {
    forall i, j :: 0 <= i < j < |xs| ==> xs[i].key < xs[j].key
  }

  lemma {:induction false} OrderedAscending(t: Tree, lo: Bound, hi: Bound)
    requires Ordered(t, lo, hi)
    ensures Ascending(Inorder(t))
  {
    if t.Fork? {
      OrderedAscending(t.l, lo, At(t.x.key));
      OrderedAscending(t.r, At(t.x.key), hi);
      KeysUnder(t.l, lo, At(t.x.key));
      KeysUnder(t.r, At(t.x.key), hi);
      JoinAscending(Inorder(t.l), t.x, Inorder(t.r));
    }
  }

  lemma JoinAscending(a: seq<Node>, x: Node, b: seq<Node>)
    requires Ascending(a) && Ascending(b) && (forall y <- a :: y.key < x.key) && (forall y <- b :: x.key < y.key)
    ensures Ascending(a + [x] + b)
  {
    var c := a + [x] + b;
    forall i, j | 0 <= i < j < |c| ensures c[i].key < c[j].key {
      if i < |a| { assert c[i] in a; }
      if j < |a| { assert c[j] in a; }
      if i > |a| { assert c[i] == b[i - |a| - 1]; }
      if j > |a| { assert c[j] == b[j - |a| - 1] && c[j] in b; }
    }
  }

  /** The order is kept. */
  lemma {:induction false} InsertOrdered(t: Tree, n: Node, lo: Bound, hi: Bound)
    requires Avl(t) && Ordered(t, lo, hi) && !Has(t, n.key) && lo.Under(n.key) && hi.Over(n.key)
    ensures Ordered(Inserted(t, n), lo, hi)
  {
    if t.Fork? {
      if n.key < t.x.key {
        InsertOrdered(t.l, n, lo, At(t.x.key));
        var v := Fork(Inserted(t.l, n), t.x, t.h, t.r);
        RepairLeft(t, v, n.key);
        RepairOrdered(v, n.key, lo, hi);
      } else {
        InsertOrdered(t.r, n, At(t.x.key), hi);
        var v := Fork(t.l, t.x, t.h, Inserted(t.r, n));
        RepairRight(t, v, n.key);
        RepairOrdered(v, n.key, lo, hi);
      }
    }
  }

  lemma RepairOrdered(t: Tree, key: int, lo: Bound, hi: Bound)
    requires Repairable(t, key) && Ordered(t, lo, hi)
    ensures Ordered(Repair(t, key), lo, hi)
  {
    var u := Make(t.l, t.x, t.r);
    if H(u.l) > H(u.r) + 1 {
      RotateRightOrdered(u, lo, hi);
      if key > u.l.x.key {
        RotateLeftOrdered(u.l, lo, At(u.x.key));
        RotateRightOrdered(Fork(RotateLeft(u.l), u.x, u.h, u.r), lo, hi);
      }
    }
    if H(u.r) > H(u.l) + 1 {
      RotateLeftOrdered(u, lo, hi);
      if key < u.r.x.key {
        RotateRightOrdered(u.r, At(u.x.key), hi);
        RotateLeftOrdered(Fork(u.l, u.x, u.h, RotateRight(u.r)), lo, hi);
      }
    }
  }

  lemma RotateRightOrdered(t: Tree, lo: Bound, hi: Bound)
    requires t.Fork? && t.l.Fork? && Ordered(t, lo, hi)
    ensures Ordered(RotateRight(t), lo, hi)
  {
  }

  lemma RotateLeftOrdered(t: Tree, lo: Bound, hi: Bound)
    requires t.Fork? && t.r.Fork? && Ordered(t, lo, hi)
    ensures Ordered(RotateLeft(t), lo, hi)
  {
  }

  // How high a tree can be

  function Fib(n: nat): nat {
    if n < 2 then n else Fib(n - 1) + Fib(n - 2)
  }

  lemma {:induction false} FibGrows(n: nat)
    ensures Fib(n) <= Fib(n + 1)
  {
    if n >= 2 { FibGrows(n - 1); }
  }

  /** A balanced tree of height h has at least Fib(h + 2) - 1 nodes. */
  lemma {:induction false} EnoughNodes(t: Tree)
    requires Avl(t)
    ensures |Inorder(t)| + 1 >= Fib(H(t) + 2)
  {
    if t.Fork? {
      EnoughNodes(t.l);
      EnoughNodes(t.r);
      if H(t.l) < H(t.r) { FibGrows(H(t.l) + 1); FibGrows(H(t.l) + 2); }
      if H(t.r) < H(t.l) { FibGrows(H(t.r) + 1); FibGrows(H(t.r) + 2); }
      if H(t.l) == H(t.r) { FibGrows(H(t.l) + 1); }
    }
  }

  // Keys that are there already

  predicate Holds(xs: seq<Node>, key: int) {
    exists i :: 0 <= i < |xs| && xs[i].key == key
  }

  /** The search finds exactly the keys of the tree. */
  lemma {:induction false} HasIff(t: Tree, key: int, lo: Bound, hi: Bound)
    requires Ordered(t, lo, hi)
    ensures Has(t, key) <==> Holds(Inorder(t), key)
  {
    if t.Fork? {
      HasIff(t.l, key, lo, At(t.x.key));
      HasIff(t.r, key, At(t.x.key), hi);
      KeysUnder(t.l, lo, At(t.x.key));
      KeysUnder(t.r, At(t.x.key), hi);
      InMiddle(Inorder(t.l), t.x, Inorder(t.r), key);
    }
  }

  lemma InMiddle(a: seq<Node>, x: Node, b: seq<Node>, key: int)
    requires (forall y <- a :: y.key < x.key) && (forall y <- b :: x.key < y.key)
    ensures Holds(a + [x] + b, key) <==>
        key == x.key || (key < x.key && Holds(a, key)) || (key > x.key && Holds(b, key))
  {
    var c := a + [x] + b;
    assert c[|a|] == x;
    assert forall i :: 0 <= i < |a| ==> c[i] == a[i] && a[i] in a;
    assert forall i :: 0 <= i < |b| ==> c[|a| + 1 + i] == b[i] && b[i] in b;
    assert forall i :: |a| < i < |c| ==> c[i] == b[i - |a| - 1];
  }

  /** What an insertion of a key that is there already leaves: the null result is stored over a child of the root. */
  function Broken(t: Tree, key: int): Tree
    requires Has(t, key)
  {
    if key == t.x.key then t
    else if key < t.x.key then Fork(Leaf, t.x, t.h, t.r)
    else Fork(t.l, t.x, t.h, Leaf)
  }

  /** It loses nodes, unless the key is the root's. */
  lemma BrokenLoses(t: Tree, key: int)
    requires Has(t, key)
    ensures Inorder(Broken(t, key)) == Inorder(t) <==> key == t.x.key
  {
    if key < t.x.key { HasSome(t.l, key); }
    if key > t.x.key { HasSome(t.r, key); }
    assert key < t.x.key ==> |Inorder(Broken(t, key))| == 1 + |Inorder(t.r)|;
    assert key > t.x.key ==> |Inorder(Broken(t, key))| == |Inorder(t.l)| + 1;
  }

  lemma HasSome(t: Tree, key: int)
    requires Has(t, key)
    ensures |Inorder(t)| > 0
  {
    assert Inorder(t)[|Inorder(t.l)|] == t.x;
  }

  // Separation

  lemma RepairApart(t: Tree, key: int)
    requires Repairable(t, key) && Apart(t)
    ensures Apart(Repair(t, key)) && Nodes(Repair(t, key)) == Nodes(t)
  {
    RepairInorder(t, key);
    var u := Make(t.l, t.x, t.r);
    if H(u.l) > H(u.r) + 1 {
      RotateRightApart(u);
      if key > u.l.x.key {
        RotateLeftInorder(u.l);
        RotateLeftApart(u.l);
        RotateRightApart(Fork(RotateLeft(u.l), u.x, u.h, u.r));
      }
    }
    if H(u.r) > H(u.l) + 1 {
      RotateLeftApart(u);
      if key < u.r.x.key {
        RotateRightInorder(u.r);
        RotateRightApart(u.r);
        RotateLeftApart(Fork(u.l, u.x, u.h, RotateRight(u.r)));
      }
    }
  }

  lemma RotateLeftApart(t: Tree)
    requires t.Fork? && t.r.Fork? && Apart(t)
    ensures Apart(RotateLeft(t))
  {
  }

  lemma RotateRightApart(t: Tree)
    requires t.Fork? && t.l.Fork? && Apart(t)
    ensures Apart(RotateRight(t))
  {
  }

  lemma {:induction false} InsertApart(t: Tree, n: Node)
    requires Avl(t) && !Has(t, n.key) && Apart(t) && n !in Nodes(t)
    ensures Apart(Inserted(t, n)) && Nodes(Inserted(t, n)) == Nodes(t) + {n}
  {
    if t.Fork? {
      if n.key < t.x.key {
        InsertApart(t.l, n);
        var v := Fork(Inserted(t.l, n), t.x, t.h, t.r);
        RepairLeft(t, v, n.key);
        RepairApart(v, n.key);
      } else {
        InsertApart(t.r, n);
        var v := Fork(t.l, t.x, t.h, Inserted(t.r, n));
        RepairRight(t, v, n.key);
        RepairApart(v, n.key);
      }
    }
  }
}
