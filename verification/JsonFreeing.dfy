/** Freeing a document tree: children before parents, each node once, and what is around it stays linked. */
module JsonFreeing {
  import opened JsonNodes
  import opened JsonPrinting

  /** The nodes below and beside, children before their parents. */
  function PostOrder(f: Forest): seq<Node> {
    match f
    case Nil => []
    case Cons(n, kids, rest) => PostOrder(kids) + [n] + PostOrder(rest)
  }

  // Unlinking one node

  function SetNext(s: Store, x: Node?, v: Node?): Store
    requires x != null ==> x in s
  {
    if x == null then s else s[x := s[x].(next := v)]
  }

  function SetPrevious(s: Store, x: Node?, v: Node?): Store
    requires x != null ==> x in s
  {
    if x == null then s else s[x := s[x].(previous := v)]
  }

  /** The parent forgets a first or last child. */
  function Orphaned(s: Store, p: Node?, x: Node, next: Node?, previous: Node?): Store
    requires p != null ==> p in s
  {
    if p == null then s else
      var s1 := if s[p].child == x then s[p := s[p].(child := next)] else s;
      if s1[p].last == x then s1[p := s1[p].(last := previous)] else s1
  }

  /** The links of a node lead to nodes that are there. */
  ghost predicate LinksLive(s: Store, x: Node) {
    && x in s && (s[x].next != null ==> s[x].next in s) && (s[x].previous != null ==> s[x].previous in s)
    && (s[x].parent != null ==> s[x].parent in s)
  }

  /** The links of the other nodes once `x` is taken out from between its siblings. */
  function Unlinked(s: Store, x: Node): Store
    requires LinksLive(s, x)
  {
    var c := s[x];
    Orphaned(SetPrevious(SetNext(s, c.previous, c.next), c.next, c.previous), c.parent, x, c.next, c.previous)
  }

  /** Where the pointer to the value is kept: in a variable, or in one of the links that lead to the value. */
  datatype Slot = Variable | ParentsFirst | ParentsLast | PreviousNext | NextPrevious

  /** The link is one that leads to the value. */
  ghost predicate Leads(s: Store, x: Node, at: Slot)
    requires LinksLive(s, x)
  {
    var c := s[x];
    match at
    case Variable => true
    case ParentsFirst => c.parent != null && s[c.parent].child == x
    case ParentsLast => c.parent != null && s[c.parent].last == x
    case PreviousNext => c.previous != null && s[c.previous].next == x
    case NextPrevious => c.next != null && s[c.next].previous == x
  }

  /** The pointer is set to null, before the value is unlinked. */
  function Cleared(s: Store, x: Node, at: Slot): (t: Store)
    requires LinksLive(s, x)
    ensures t.Keys == s.Keys
  {
    var c := s[x];
    match at
    case Variable => s
    case ParentsFirst => if c.parent == null then s else s[c.parent := s[c.parent].(child := null)]
    case ParentsLast => if c.parent == null then s else s[c.parent := s[c.parent].(last := null)]
    case PreviousNext => SetNext(s, c.previous, null)
    case NextPrevious => SetPrevious(s, c.next, null)
  }

  /** Unlinking the value sets the pointer again, so that the loop goes on. */
  ghost predicate GoesOn(s: Store, x: Node, at: Slot)
    requires x in s
  {
    (at.PreviousNext? && s[x].next != null) || (at.NextPrevious? && s[x].previous != null)
  }

  // Where the loop is

  /** Node `n` is the first child that is left of its parent, and so on up to `root`. */
  ghost predicate First(s: Store, n: Node, t: Todo, root: Node) {
    match t
    case AtRoot => n == root
    case Under(p, rest, up) =>
      && n in s && p in s && s[n].parent == p && s[n].next == Head(rest, null) && s[n].previous == null
      && s[p].child == n && s[p].last == Last(rest, n)
      && Rep(s, rest, p, n, null) && First(s, p, up, root)
  }

  ghost predicate Family(s: Store, n: Node, kids: Forest) {
    n in s && s[n].child == Head(kids, null) && s[n].last == Last(kids, null) && Rep(s, kids, n, null, null)
  }

  ghost function TodoNodes(t: Todo): set<Node> {
    match t
    case AtRoot => {}
    case Under(p, rest, up) => {p} + Nodes(rest) + TodoNodes(up)
  }

  ghost predicate TodoApart(t: Todo) {
    t.Under? ==> t.p !in Nodes(t.rest) && Apart(t.rest) && ({t.p} + Nodes(t.rest)) !! TodoNodes(t.up) && TodoApart(t.up)
  }

  /** A moment of the loop: the cursor and its children are separate from all that comes later. */
  ghost predicate Walking(s: Store, n: Node, kids: Forest, t: Todo, root: Node) {
    && First(s, n, t, root) && Family(s, n, kids)
    && n !in Nodes(kids) && Apart(kids) && ({n} + Nodes(kids)) !! TodoNodes(t) && TodoApart(t)
    && {n} + Nodes(kids) + TodoNodes(t) <= s.Keys
  }

  /** The nodes still to be freed, in order. */
  function ToFree(n: Node, kids: Forest, t: Todo): seq<Node>
    decreases t
  {
    PostOrder(kids) + [n] + match t case AtRoot => [] case Under(p, rest, up) => ToFree(p, rest, up)
  }

  lemma StepDown(s: Store, n: Node, kids: Forest, t: Todo, root: Node)
    requires Walking(s, n, kids, t, root) && kids.Cons?
    ensures Walking(s, kids.node, kids.kids, Under(n, kids.rest, t), root)
    ensures ToFree(n, kids, t) == ToFree(kids.node, kids.kids, Under(n, kids.rest, t))
  {
    var a, b := PostOrder(kids.kids), PostOrder(kids.rest);
    var c := match t case AtRoot => [] case Under(p, rest, up) => ToFree(p, rest, up);
    assert (a + [kids.node] + b) + [n] + c == a + [kids.node] + (b + [n] + c);
  }

  lemma {:induction false} FirstFrame(s: Store, s': Store, n: Node, t: Todo, root: Node)
    requires First(s, n, t, root) && n in s && n in s' && Agree(s, s', TodoNodes(t)) && TodoNodes(t) <= s.Keys
    requires s'[n].parent == s[n].parent && s'[n].next == s[n].next && s'[n].previous == s[n].previous
    ensures First(s', n, t, root)
  {
    if t.Under? {
      assert t.p in TodoNodes(t) && Nodes(t.rest) <= TodoNodes(t) && TodoNodes(t.up) <= TodoNodes(t);
      RepFrame(s, s', t.rest, t.p, n, null);
      FirstFrame(s, s', t.p, t.up, root);
    }
  }

  /** A list of siblings whose head gets another node before it. */
  lemma RepPrevious(s: Store, f: Forest, parent: Node?, previous: Node?, after: Node?, v: Node?)
    requires Rep(s, f, parent, previous, after) && Apart(f) && f.Cons?
    ensures f.node in s && Rep(s[f.node := s[f.node].(previous := v)], f, parent, v, after)
  {
    var s' := s[f.node := s[f.node].(previous := v)];
    RepFrame(s, s', f.kids, f.node, null, null);
    RepFrame(s, s', f.rest, parent, f.node, after);
  }

  /** The links once the first child `n` of `p` is gone. */
  function WithoutFirst(s: Store, n: Node, p: Node, rest: Forest): Store
    requires p in s && (rest.Cons? ==> rest.node in s)
  {
    var s1 := SetPrevious(s, Head(rest, null), null);
    Orphaned(s1, p, n, Head(rest, null), null)
  }

  lemma LeafUnlinked(s: Store, n: Node, t: Todo, root: Node)
    requires Walking(s, n, Nil, t, root) && t.Under?
    ensures LinksLive(s, n) && Unlinked(s, n) == WithoutFirst(s, n, t.p, t.rest)
  {
  }

  lemma LastIn(f: Forest, n: Node)
    ensures Last(f, n) == n || Last(f, n) in Nodes(f)
    ensures f.Cons? ==> Last(f, n) in Nodes(f) && Last(f, n) == Last(f, null)
  {
  }

  /** A leaf below the root goes: the cursor moves to its parent, which has one child less. */
  lemma LeafGone(s: Store, n: Node, t: Todo, root: Node)
    requires Walking(s, n, Nil, t, root) && t.Under?
    ensures LinksLive(s, n) && Walking(Unlinked(s, n) - {n}, t.p, t.rest, t.up, root)
  {
    LeafUnlinked(s, n, t, root);
    LeafFamily(s, n, t, root);
    hide Unlinked, WithoutFirst, Rep, Family;
    FirstFrame(s, Unlinked(s, n) - {n}, t.p, t.up, root);
  }

  lemma LeafOrder(n: Node, t: Todo)
    requires t.Under?
    ensures ToFree(n, Nil, t) == [n] + ToFree(t.p, t.rest, t.up)
  {
    assert [] + [n] + ToFree(t.p, t.rest, t.up) == [n] + ToFree(t.p, t.rest, t.up);
  }

  lemma LeafFamily(s: Store, n: Node, t: Todo, root: Node)
    requires Walking(s, n, Nil, t, root) && t.Under?
    ensures t.p in s && (t.rest.Cons? ==> t.rest.node in s)
    ensures var s' := WithoutFirst(s, n, t.p, t.rest) - {n};
      && Family(s', t.p, t.rest) && Agree(s, s', TodoNodes(t.up)) && s'.Keys == s.Keys - {n}
      && s'[t.p].parent == s[t.p].parent && s'[t.p].next == s[t.p].next && s'[t.p].previous == s[t.p].previous
  {
    var p, rest := t.p, t.rest;
    var s1 := SetPrevious(s, Head(rest, null), null);
    var s' := WithoutFirst(s, n, p, rest) - {n};
    LastIn(rest, n);
    if rest.Cons? {
      RepPrevious(s, rest, p, n, null, null);
      RepFrame(s1, s', rest, p, null, null);
    }
  }

  /** Nothing outside the tree changes while nodes below the root go; and the root keeps its place. */
  ghost predicate Around(s0: Store, s: Store, root: Node, all: set<Node>) {
    && s0.Keys - all == s.Keys - all && (forall x :: x in s0 && x !in all ==> x in s && s[x] == s0[x])
    && root in s0 && root in s && s[root].next == s0[root].next && s[root].previous == s0[root].previous
        && s[root].parent == s0[root].parent
  }

  lemma LeafAround(s0: Store, s: Store, n: Node, t: Todo, root: Node, all: set<Node>)
    requires Around(s0, s, root, all) && Walking(s, n, Nil, t, root) && t.Under? && n != root
    requires {n} + TodoNodes(t) <= all
    ensures LinksLive(s, n) && Around(s0, Unlinked(s, n) - {n}, root, all)
  {
    LeafUnlinked(s, n, t, root);
    LeafKeeps(s, n, t, root);
    RootAtEnd(s, n, t, root);
    assert n !in TodoNodes(t);
  }

  lemma LeafKeeps(s: Store, n: Node, t: Todo, root: Node)
    requires Walking(s, n, Nil, t, root) && t.Under?
    ensures t.p in s && (t.rest.Cons? ==> t.rest.node in s)
    ensures var s' := WithoutFirst(s, n, t.p, t.rest);
      && s'.Keys == s.Keys && (forall x :: x in s && x !in TodoNodes(t) ==> s'[x] == s[x])
      && (root in TodoNodes(t) && root in s ==> s'[root].next == s[root].next && s'[root].parent == s[root].parent)
      && (root in TodoNodes(t) && root in s && root !in Nodes(t.rest) ==> s'[root].previous == s[root].previous)
  {
    assert t.p in TodoNodes(t) && Nodes(t.rest) <= TodoNodes(t);
  }

  /** The root of the walk is at the end of the way up. */
  lemma {:induction false} RootAtEnd(s: Store, n: Node, t: Todo, root: Node)
    requires First(s, n, t, root) && TodoApart(t) && t.Under?
    ensures root in TodoNodes(t) && root !in Nodes(t.rest)
  {
    if t.up.Under? { RootAtEnd(s, t.p, t.up, root); }
  }

  // The loop

  /** One node is unlinked from its siblings and its parent. */
  method FreeNode(x: Node, ghost live: set<Node>)
    requires LinksLive(Links(live), x) && x.child == null && x.next != x && x.previous != x && x.parent != x
    modifies live
    ensures Links(live) == Unlinked(old(Links(live)), x)
  {
    ghost var s := Links(live);
    assert s[x] == Cell(x.next, x.previous, x.parent, x.child, x.childEnd);
    if x.previous != null { x.previous.next := x.next; }
    ghost var s1 := Links(live);
    assert s1 == SetNext(s, s[x].previous, s[x].next);
    if x.next != null { x.next.previous := x.previous; }
    ghost var s2 := Links(live);
    assert s2 == SetPrevious(s1, s[x].next, s[x].previous);
    Orphan(x, live);
  }

  method Orphan(x: Node, ghost live: set<Node>)
    requires x in live && (x.parent != null ==> x.parent in live) && x.parent != x
    modifies live
    ensures Links(live) == Orphaned(old(Links(live)), old(x.parent), x, old(x.next), old(x.previous))
    ensures x.parent == old(x.parent) && x.next == old(x.next) && x.previous == old(x.previous)
  {
    if x.parent != null {
      if x.parent.child == x { x.parent.child := x.next; }
      if x.parent.childEnd == x { x.parent.childEnd := x.previous; }
    }
  }

  /** The links of the root lead out of its tree. */
  ghost predicate LinksOut(s: Store, root: Node, kids: Forest)
    requires root in s
  {
    var all := {root} + Nodes(kids);
    s[root].next !in all && s[root].previous !in all && s[root].parent !in all
  }

  /** A moment of the loop, seen from its beginning. */
  ghost predicate Underway(s0: Store, s: Store, n: Node, k: Forest, t: Todo, root: Node, kids: Forest,
      freed: seq<Node>) {
    var all := {root} + Nodes(kids);
    && Walking(s, n, k, t, root) && Around(s0, s, root, all) && {n} + Nodes(k) + TodoNodes(t) <= all
    && freed + ToFree(n, k, t) == PostOrder(kids) + [root]
  }

  lemma MomentDown(s0: Store, s: Store, n: Node, k: Forest, t: Todo, root: Node, kids: Forest, freed: seq<Node>)
    requires Underway(s0, s, n, k, t, root, kids, freed) && k.Cons?
    ensures n in s && s[n].child == k.node && k.node in s
    ensures Underway(s0, s, k.node, k.kids, Under(n, k.rest, t), root, kids, freed)
  {
    StepDown(s, n, k, t, root);
  }

  lemma MomentUp(s0: Store, s: Store, n: Node, t: Todo, root: Node, kids: Forest, freed: seq<Node>)
    requires Underway(s0, s, n, Nil, t, root, kids, freed) && t.Under?
    ensures LinksLive(s, n) && s[n].parent == t.p && n != root
    ensures Underway(s0, Unlinked(s, n) - {n}, t.p, t.rest, t.up, root, kids, freed + [n])
  {
    RootAtEnd(s, n, t, root);
    LeafGone(s, n, t, root);
    LeafAround(s0, s, n, t, root, {root} + Nodes(kids));
    LeafOrder(n, t);
    assert freed + ([n] + ToFree(t.p, t.rest, t.up)) == (freed + [n]) + ToFree(t.p, t.rest, t.up);
  }

  /** The links of a moment's cursor lead to live nodes, and not to itself. */
  lemma MomentLinks(s0: Store, s: Store, n: Node, k: Forest, t: Todo, root: Node, kids: Forest, freed: seq<Node>)
    requires Underway(s0, s, n, k, t, root, kids, freed) && LinksLive(s0, root) && LinksOut(s0, root, kids)
    ensures LinksLive(s, n) && s[n].next != n && s[n].previous != n && s[n].parent != n && s[n].child == Head(k, null)
    ensures t.AtRoot? <==> n == root
    ensures var all := {root} + Nodes(kids); s0.Keys - all == s.Keys - all
  {
    if t.Under? {
      RootAtEnd(s, n, t, root);
      if t.rest.Cons? { assert t.rest.node in Nodes(t.rest); }
    }
  }

  /** The last node to go is the root; what is around it is linked as if only the root had gone. */
  lemma MomentEnd(s0: Store, s: Store, root: Node, kids: Forest, freed: seq<Node>, at: Slot)
    requires Underway(s0, s, root, Nil, AtRoot, root, kids, freed) && LinksLive(s0, root) && LinksOut(s0, root, kids)
    requires LinksLive(s, root)
    ensures freed + [root] == PostOrder(kids) + [root]
    ensures var c, c0, all := Cleared(s, root, at), Cleared(s0, root, at), {root} + Nodes(kids);
      && LinksLive(c, root) && LinksLive(c0, root) && SameLinks(c0, c, root) && SameLinks(s0, s, root)
      && SameLinks(s0, c0, root) && Unlinked(c, root) - all == Unlinked(c0, root) - all
  {
    assert ToFree(root, Nil, AtRoot) == [] + [root] + [] == [root];
    var all := {root} + Nodes(kids);
    forall x | x in s && x !in all ensures x in s0 { assert x in s.Keys - all; }
    SameCleared(s0, s, root, at, all);
    SameUnlinked(Cleared(s0, root, at), Cleared(s, root, at), root, all);
  }

  /** Outside `all`, the two stores are the same. */
  ghost predicate AgreeOff(a: Store, b: Store, all: set<Node>) {
    && (forall x :: x in a && x !in all ==> x in b && a[x] == b[x])
    && (forall x :: x in b && x !in all ==> x in a)
  }

  lemma AgreeOffSame(a: Store, b: Store, all: set<Node>)
    requires AgreeOff(a, b, all)
    ensures a - all == b - all
  {
    assert (a - all).Keys == (b - all).Keys;
  }

  /** The two stores have the same links of `x` to what is around it, which is outside `all`. */
  ghost predicate SameLinks(a: Store, b: Store, x: Node) {
    x in a && x in b && a[x].next == b[x].next && a[x].previous == b[x].previous && a[x].parent == b[x].parent
  }

  ghost predicate LinksAway(s: Store, x: Node, all: set<Node>) {
    LinksLive(s, x) && s[x].next !in all && s[x].previous !in all && s[x].parent !in all
  }

  lemma SameCleared(a: Store, b: Store, x: Node, at: Slot, all: set<Node>)
    requires AgreeOff(a, b, all) && SameLinks(a, b, x) && LinksAway(a, x, all) && LinksAway(b, x, all) && x in all
    ensures var a1, b1 := Cleared(a, x, at), Cleared(b, x, at);
      && AgreeOff(a1, b1, all) && SameLinks(a, a1, x) && SameLinks(b, b1, x)
      && LinksAway(a1, x, all) && LinksAway(b1, x, all)
  {
  }

  lemma SameUnlinked(s0: Store, s: Store, root: Node, all: set<Node>)
    requires AgreeOff(s0, s, all) && SameLinks(s0, s, root) && LinksAway(s0, root, all) && LinksAway(s, root, all)
    ensures Unlinked(s, root) - all == Unlinked(s0, root) - all
  {
    var c := s0[root];
    var a, b := SetNext(s0, c.previous, c.next), SetNext(s, c.previous, c.next);
    assert AgreeOff(a, b, all);
    SameOrphaned(SetPrevious(a, c.next, c.previous), SetPrevious(b, c.next, c.previous), c.parent, root, c.next,
        c.previous, all);
    AgreeOffSame(Unlinked(s, root), Unlinked(s0, root), all);
  }

  lemma SameOrphaned(a: Store, b: Store, p: Node?, x: Node, next: Node?, previous: Node?, all: set<Node>)
    requires AgreeOff(a, b, all) && p !in all && (p != null ==> p in a && p in b)
    ensures AgreeOff(Orphaned(a, p, x, next, previous), Orphaned(b, p, x, next, previous), all)
    ensures AgreeOff(Orphaned(b, p, x, next, previous), Orphaned(a, p, x, next, previous), all)
  {
  }

  /** The pointer to the value is set to null. */
  method ClearSlot(x: Node, at: Slot, ghost live: set<Node>)
    requires LinksLive(Links(live), x) && x.next != x && x.previous != x && x.parent != x
    modifies live
    ensures Links(live) == Cleared(old(Links(live)), x, at)
    ensures x.next == old(x.next) && x.previous == old(x.previous) && x.parent == old(x.parent)
    ensures x.child == old(x.child)
  {
    ghost var s := Links(live);
    assert s[x] == Cell(x.next, x.previous, x.parent, x.child, x.childEnd);
    match at
    case Variable =>
    case ParentsFirst => if x.parent != null { x.parent.child := null; }
    case ParentsLast => if x.parent != null { x.parent.childEnd := null; }
    case PreviousNext => if x.previous != null { x.previous.next := null; }
    case NextPrevious => if x.next != null { x.next.previous := null; }
  }

  /** The cursor's node is freed; before that, the pointer to the value is set to null if it is the value's. */
  method FreeCursor(cursor: Node, ghost live: set<Node>, ghost s0: Store, ghost t: Todo, root: Node, at: Slot,
      ghost kids: Forest, ghost freed: seq<Node>)
      returns (parent: Node?)
    requires Underway(s0, Links(live), cursor, Nil, t, root, kids, freed) && LinksLive(s0, root)
    requires LinksOut(s0, root, kids)
    modifies live
    ensures t.AtRoot? <==> cursor == root
    ensures t.Under? ==> parent == t.p
    ensures t.Under? ==> Underway(s0, Links(live - {cursor}), t.p, t.rest, t.up, root, kids, freed + [cursor])
    ensures t.AtRoot? ==> freed + [cursor] == PostOrder(kids) + [root]
    ensures t.AtRoot? ==> LinksLive(Cleared(s0, root, at), root)
    ensures var all := {root} + Nodes(kids);
      t.AtRoot? ==> Links(s0.Keys - all) == Unlinked(Cleared(s0, root, at), root) - all
  {
    ghost var s := Links(live);
    MomentLinks(s0, s, cursor, Nil, t, root, kids, freed);
    assert s[cursor] == Cell(cursor.next, cursor.previous, cursor.parent, cursor.child, cursor.childEnd);
    parent := cursor.parent;
    if t.Under? { MomentUp(s0, s, cursor, t, root, kids, freed); } else { MomentEnd(s0, s, root, kids, freed, at); }
    hide Underway, Unlinked, LinksOut, Cleared;
    if cursor == root { ClearSlot(cursor, at, live); }
    FreeNode(cursor, live);
    LinksWithout(live, {cursor});
    LinksWithout(live, {root} + Nodes(kids));
    assert s.Keys == live;
  }

  lemma LinksWithout(live: set<Node>, gone: set<Node>)
    ensures Links(live - gone) == Links(live) - gone
  {
  }

  /** The cursor moves down, or its node is freed. */
  method FreeStep(cursor: Node, value: Node, at: Slot, ghost live: set<Node>, ghost s0: Store, ghost k: Forest,
      ghost t: Todo,
      ghost kids: Forest, ghost freed: seq<Node>)
      returns (done: bool, next: Node, ghost live1: set<Node>, ghost k1: Forest, ghost t1: Todo,
          ghost freed1: seq<Node>)
    requires cursor in live && Underway(s0, Links(live), cursor, k, t, value, kids, freed) && LinksLive(s0, value)
    requires LinksOut(s0, value, kids)
    modifies live
    ensures live1 <= live && (!done ==> |live1| < |live| || (live1 == live && Count(k1) < Count(k)))
    ensures !done ==> next in live1 && Underway(s0, Links(live1), next, k1, t1, value, kids, freed1)
    ensures done ==> freed1 == PostOrder(kids) + [value]
    ensures done ==> LinksLive(Cleared(s0, value, at), value)
    ensures var all := {value} + Nodes(kids);
      done ==> Links(s0.Keys - all) == Unlinked(Cleared(s0, value, at), value) - all
  {
    hide Underway, Unlinked, LinksOut, LinksLive, Cleared;
    MomentLinks(s0, Links(live), cursor, k, t, value, kids, freed);
    assert Links(live)[cursor].child == cursor.child;
    done, next, live1, k1, t1, freed1 := false, cursor, live, k, t, freed;
    if cursor.child != null {
      MomentDown(s0, Links(live), cursor, k, t, value, kids, freed);
      k1, t1, next := k.kids, Under(cursor, k.rest, t), cursor.child;
    } else {
      done := cursor == value;
      var parent := FreeCursor(cursor, live, s0, t, value, at, kids, freed);
      freed1, live1 := freed + [cursor], live - {cursor};
      if !done {
        k1, t1, next := t.rest, t.up, parent;
        MomentLive(s0, Links(live1), next, k1, t1, value, kids, freed1);
      }
    }
  }

  lemma MomentLive(s0: Store, s: Store, n: Node, k: Forest, t: Todo, root: Node, kids: Forest, freed: seq<Node>)
    requires Underway(s0, s, n, k, t, root, kids, freed)
    ensures n in s
  {
  }

  /** The tree below `value` is freed; `value` comes last, and its siblings and parent are linked without it. If
      the pointer to the value is one of the links that lead to it, that link is cleared first; and if unlinking the
      value sets it again, the loop goes on with a node outside the tree, which is where this ends. */
  method FreeValue(value: Node, at: Slot, ghost nodes: set<Node>, ghost kids: Forest)
      returns (ghost freed: seq<Node>, goesOn: bool)
    requires value in nodes && Walking(Links(nodes), value, kids, AtRoot, value)
    requires LinksLive(Links(nodes), value) && LinksOut(Links(nodes), value, kids) && Leads(Links(nodes), value, at)
    modifies nodes
    ensures freed == PostOrder(kids) + [value]
    ensures LinksLive(Cleared(old(Links(nodes)), value, at), value)
    ensures var all := {value} + Nodes(kids);
      Links(nodes - all) == Unlinked(Cleared(old(Links(nodes)), value, at), value) - all
    ensures goesOn <==> GoesOn(old(Links(nodes)), value, at)
  {
    var cursor, done, previous, next := value, false, value.previous, value.next;
    ghost var s0, live, k, t := Links(nodes), nodes, kids, AtRoot;
    assert s0[value] == Cell(value.next, value.previous, value.parent, value.child, value.childEnd);
    LinkedAgain(s0, value, at, {value} + Nodes(kids));
    freed := [];
    MomentStart(s0, value, kids);
    hide Underway, Unlinked, LinksOut, Walking, LinksLive, Cleared, Leads;
    while !done
      invariant live <= nodes
      invariant !done ==> cursor in live && Underway(s0, Links(live), cursor, k, t, value, kids, freed)
      invariant done ==> freed == PostOrder(kids) + [value] && LinksLive(Cleared(s0, value, at), value)
      invariant var all := {value} + Nodes(kids);
        done ==> Links(s0.Keys - all) == Unlinked(Cleared(s0, value, at), value) - all
      decreases !done, |live|, Count(k)
    {
      done, cursor, live, k, t, freed := FreeStep(cursor, value, at, live, s0, k, t, kids, freed);
    }
    assert s0.Keys == nodes;
    goesOn := match at
      case PreviousNext => previous.next != null
      case NextPrevious => next.previous != null
      case _ => false;
  }

  /** What the link that led to the value is afterwards. */
  lemma LinkedAgain(s: Store, x: Node, at: Slot, all: set<Node>)
    requires LinksAway(s, x, all) && x in all && Leads(s, x, at)
    ensures LinksLive(Cleared(s, x, at), x)
    ensures var c, t := s[x], Unlinked(Cleared(s, x, at), x) - all;
      && (at.PreviousNext? ==> c.previous != null && c.previous in t && t[c.previous].next == c.next)
      && (at.NextPrevious? ==> c.next != null && c.next in t && t[c.next].previous == c.previous)
  {
  }

  lemma MomentStart(s: Store, root: Node, kids: Forest)
    requires root in s && Walking(s, root, kids, AtRoot, root)
    ensures Underway(s, s, root, kids, AtRoot, root, kids, [])
  {
    assert [] + (PostOrder(kids) + [root] + []) == PostOrder(kids) + [root];
  }

  /** What the link that leads to the value becomes when the value is unlinked. */
  ghost function Follows(s: Store, x: Node, at: Slot): Node?
    requires x in s
  {
    match at
    case Variable => null
    case ParentsFirst => s[x].next
    case ParentsLast => s[x].previous
    case PreviousNext => s[x].next
    case NextPrevious => s[x].previous
  }

  /** Freeing by a link that leads to the value is freeing by a variable, exactly if the link ends there anyway. */
  lemma WhereThePointerIs(s: Store, x: Node, at: Slot)
    requires LinksAway(s, x, {x}) && Leads(s, x, at)
    ensures LinksLive(Cleared(s, x, at), x)
    ensures !GoesOn(s, x, at) && Unlinked(Cleared(s, x, at), x) == Unlinked(s, x) <==> Follows(s, x, at) == null
  {
    match at
    case Variable =>
    case ParentsFirst => InParentsFirst(s, x);
    case ParentsLast => InParentsLast(s, x);
    case PreviousNext => InPreviousNext(s, x);
    case NextPrevious => InNextPrevious(s, x);
  }

  /** The links of the siblings are the same, and the parent's only differ in the one cleared. */
  lemma InParentsFirst(s: Store, x: Node)
    requires LinksAway(s, x, {x}) && Leads(s, x, ParentsFirst)
    ensures LinksLive(Cleared(s, x, ParentsFirst), x)
    ensures Unlinked(Cleared(s, x, ParentsFirst), x) == Unlinked(s, x) <==> s[x].next == null
  {
    var p: Node, c := s[x].parent, s[x];
    var t, u := Bridged(Cleared(s, x, ParentsFirst), x), Bridged(s, x);
    assert t == u[p := u[p].(child := null)];
    hide SetNext, SetPrevious, Orphaned;
    WithoutChild(u, p, x, c.next, c.previous);
  }

  lemma InParentsLast(s: Store, x: Node)
    requires LinksAway(s, x, {x}) && Leads(s, x, ParentsLast)
    ensures LinksLive(Cleared(s, x, ParentsLast), x)
    ensures Unlinked(Cleared(s, x, ParentsLast), x) == Unlinked(s, x) <==> s[x].previous == null
  {
    var p: Node, c := s[x].parent, s[x];
    var t, u := Bridged(Cleared(s, x, ParentsLast), x), Bridged(s, x);
    assert t == u[p := u[p].(last := null)];
    hide SetNext, SetPrevious, Orphaned;
    WithoutLast(u, p, x, c.next, c.previous);
  }

  lemma WithoutChild(s: Store, p: Node, x: Node, next: Node?, previous: Node?)
    requires p in s && s[p].child == x
    ensures Orphaned(s[p := s[p].(child := null)], p, x, next, previous) == Orphaned(s, p, x, next, previous) <==>
      next == null
  {
    var t, u := Orphaned(s[p := s[p].(child := null)], p, x, next, previous), Orphaned(s, p, x, next, previous);
    assert t[p].child == null && u[p].child == next;
    if next == null { assert t == u; }
  }

  lemma WithoutLast(s: Store, p: Node, x: Node, next: Node?, previous: Node?)
    requires p in s && s[p].last == x
    ensures Orphaned(s[p := s[p].(last := null)], p, x, next, previous) == Orphaned(s, p, x, next, previous) <==>
      previous == null
  {
    var t, u := Orphaned(s[p := s[p].(last := null)], p, x, next, previous), Orphaned(s, p, x, next, previous);
    assert t[p].last == null && u[p].last == previous;
    if previous == null { assert t == u; }
  }

  lemma InPreviousNext(s: Store, x: Node)
    requires LinksAway(s, x, {x}) && Leads(s, x, PreviousNext)
    ensures LinksLive(Cleared(s, x, PreviousNext), x) && Unlinked(Cleared(s, x, PreviousNext), x) == Unlinked(s, x)
  {
    hide Orphaned;
    assert SetNext(Cleared(s, x, PreviousNext), s[x].previous, s[x].next) == SetNext(s, s[x].previous, s[x].next);
  }

  lemma InNextPrevious(s: Store, x: Node)
    requires LinksAway(s, x, {x}) && Leads(s, x, NextPrevious)
    ensures LinksLive(Cleared(s, x, NextPrevious), x) && Unlinked(Cleared(s, x, NextPrevious), x) == Unlinked(s, x)
  {
    hide Orphaned;
    assert Bridged(Cleared(s, x, NextPrevious), x) == Bridged(s, x);
  }

  // What is around

  /** The siblings without `x`. */
  function Drop(f: Forest, x: Node): Forest {
    if f.Nil? then Nil else if f.node == x then f.rest else Cons(f.node, f.kids, Drop(f.rest, x))
  }

  predicate Among(f: Forest, x: Node) {
    f.Cons? && (f.node == x || Among(f.rest, x))
  }

  lemma {:induction false} AmongNodes(f: Forest, x: Node)
    requires Among(f, x)
    ensures x in Nodes(f)
  {
    if f.node != x { AmongNodes(f.rest, x); }
  }

  /** The neighbours of `x` linked to each other. */
  function Bridged(s: Store, x: Node): Store
    requires LinksLive(s, x)
  {
    SetPrevious(SetNext(s, s[x].previous, s[x].next), s[x].next, s[x].previous)
  }

  /** Where `x` stands among its siblings. */
  lemma {:induction false} Neighbours(s: Store, f: Forest, parent: Node?, previous: Node?, x: Node)
    requires Rep(s, f, parent, previous, null) && Among(f, x) && previous !in Nodes(f) && Apart(f)
    ensures x in s && s[x].parent == parent
    ensures s[x].next != null ==> s[x].next in s && s[x].next in Nodes(f)
    ensures if f.node == x then s[x].previous == previous
        else s[x].previous != null && s[x].previous in s && s[x].previous in Nodes(f)
  {
    if f.node != x { Neighbours(s, f.rest, parent, f.node, x); }
  }

  lemma {:induction false} BridgedRep(s: Store, f: Forest, parent: Node?, previous: Node?, x: Node)
    requires Rep(s, f, parent, previous, null) && Among(f, x) && previous !in Nodes(f) && Apart(f) && LinksLive(s, x)
    ensures Rep(Bridged(s, x), Drop(f, x), parent, previous, null)
    ensures Head(Drop(f, x), null) == if f.node == x then s[x].next else f.node
    decreases f
  {
    var s' := Bridged(s, x);
    Neighbours(s, f, parent, previous, x);
    if f.node == x {
      if f.rest.Cons? {
        RepPrevious(s, f.rest, parent, x, null, previous);
        RepFrame(s[f.rest.node := s[f.rest.node].(previous := previous)], s', f.rest, parent, previous, null);
      }
    } else {
      AmongNodes(f.rest, x);
      Neighbours(s, f.rest, parent, f.node, x);
      BridgedRep(s, f.rest, parent, f.node, x);
      RepFrame(s, s', f.kids, f.node, null, null);
    }
  }

  lemma {:induction false} LastDrop(s: Store, f: Forest, parent: Node?, previous: Node?, x: Node)
    requires Rep(s, f, parent, previous, null) && Among(f, x) && previous !in Nodes(f) && Apart(f) && x in s
    ensures Last(Drop(f, x), previous) == if Last(f, previous) == x then s[x].previous else Last(f, previous)
    ensures Last(f, previous) == x ==> s[x].next == null
  {
    if f.node == x {
      LastIn(f.rest, x);
    } else {
      LastDrop(s, f.rest, parent, f.node, x);
    }
  }

  /** After a child is unlinked, its parent's children are the others, in order. */
  lemma SiblingsStay(s: Store, p: Node, f: Forest, x: Node)
    requires Family(s, p, f) && Apart(f) && p !in Nodes(f) && Among(f, x)
    ensures LinksLive(s, x) && Family(Unlinked(s, x), p, Drop(f, x))
  {
    Neighbours(s, f, p, null, x);
    BridgedRep(s, f, p, null, x);
    LastDrop(s, f, p, null, x);
    AmongNodes(f, x);
    DropNodes(f, x);
    RepFrame(Bridged(s, x), Unlinked(s, x), Drop(f, x), p, null, null);
  }

  lemma {:induction false} DropNodes(f: Forest, x: Node)
    ensures Nodes(Drop(f, x)) <= Nodes(f)
  {
    if f.Cons? && f.node != x { DropNodes(f.rest, x); }
  }
}
