/** Circular lists with a sentinel, and stable insertion sort on what they hold. */
module QueueRing {

  class Link {
    var prev: Link
    var next: Link

    /** A link to itself: an empty list. */
    constructor ()
      ensures prev == this && next == this
    {
      prev, next := this, this;
    }
  }

  datatype Cell = Cell(prev: Link, next: Link)

  type Store = map<Link, Cell>

  ghost function Links(nodes: set<Link>): Store
    reads nodes
  {
    map x | x in nodes :: Cell(x.prev, x.next)
  }

  /** Number `i` around the ring; the sentinel is number 0, and comes again behind the last. */
  function At(h: Link, xs: seq<Link>, i: nat): Link {
    if 1 <= i <= |xs| then xs[i - 1] else h
  }

  ghost predicate Distinct(h: Link, xs: seq<Link>) {
    h !in xs && forall i, j :: 0 <= i < j < |xs| ==> xs[i] != xs[j]
  }

  /** Numbers `i` and `i + 1` are linked to each other. */
  ghost predicate Linked(s: Store, h: Link, xs: seq<Link>, i: nat) {
    var a, b := At(h, xs, i), At(h, xs, i + 1);
    a in s && b in s && s[a].next == b && s[b].prev == a
  }

  /** The ring of `h` holds the elements of `xs`, in order. */
  ghost predicate Ring(s: Store, h: Link, xs: seq<Link>) {
    Distinct(h, xs) && forall i :: 0 <= i <= |xs| ==> Linked(s, h, xs, i)
  }

  lemma AtApart(h: Link, xs: seq<Link>, i: nat, j: nat)
    requires Distinct(h, xs) && i <= |xs| && j <= |xs| && i != j
    ensures At(h, xs, i) != At(h, xs, j)
  {
  }

  function SetNext(s: Store, x: Link, v: Link): Store
    requires x in s
  {
    s[x := s[x].(next := v)]
  }

  function SetPrev(s: Store, x: Link, v: Link): Store
    requires x in s
  {
    s[x := s[x].(prev := v)]
  }

  // Taking an element out

  /** dl_queue_remove. */
  function Removed(s: Store, x: Link): Store
    requires x in s && s[x].next in s && s[x].prev in s
  {
    SetNext(SetPrev(s, s[x].next, s[x].prev), s[x].prev, s[x].next)
  }

  function Without(xs: seq<Link>, k: nat): seq<Link>
    requires k < |xs|
  {
    xs[..k] + xs[k + 1..]
  }

  lemma Neighbours(s: Store, h: Link, xs: seq<Link>, k: nat)
    requires Ring(s, h, xs) && k < |xs|
    ensures xs[k] in s && s[xs[k]].prev == At(h, xs, k) && s[xs[k]].next == At(h, xs, k + 2) && At(h, xs, k) in s
    ensures At(h, xs, k + 2) in s
  {
    assert Linked(s, h, xs, k) && Linked(s, h, xs, k + 1);
  }

  lemma RemoveRing(s: Store, h: Link, xs: seq<Link>, k: nat)
    requires Ring(s, h, xs) && k < |xs|
    ensures xs[k] in s && s[xs[k]].next in s && s[xs[k]].prev in s
    ensures Ring(Removed(s, xs[k]), h, Without(xs, k))
  {
    Neighbours(s, h, xs, k);
    var s', ys := Removed(s, xs[k]), Without(xs, k);
    assert Distinct(h, ys);
    forall i | 0 <= i <= |ys| ensures Linked(s', h, ys, i) {
      RemoveLink(s, h, xs, k, i);
    }
  }

  lemma RemoveLink(s: Store, h: Link, xs: seq<Link>, k: nat, i: nat)
    requires Ring(s, h, xs) && k < |xs| && i < |xs|
    requires xs[k] in s && s[xs[k]].prev == At(h, xs, k) && s[xs[k]].next == At(h, xs, k + 2) && At(h, xs, k) in s
    requires At(h, xs, k + 2) in s
    ensures Linked(Removed(s, xs[k]), h, Without(xs, k), i)
  {
    var ys := Without(xs, k);
    var j := if i < k then i else i + 1;
    assert At(h, ys, i) == if i <= k then At(h, xs, i) else At(h, xs, i + 1);
    assert At(h, ys, i + 1) == At(h, xs, if i < k then i + 1 else i + 2);
    assert Linked(s, h, xs, j);
    if i < k {
      AtApart(h, xs, i, k);
      if i + 1 != k + 2 && i + 1 <= |xs| { Around(h, xs, i + 1, k + 2); }
    }
    if i > k {
      AtApart(h, xs, i + 1, k);
      Around(h, xs, i + 2, k + 2);
    }
  }

  /** Different numbers are different links, the last one being the sentinel again. */
  lemma Around(h: Link, xs: seq<Link>, i: nat, j: nat)
    requires Distinct(h, xs) && 1 <= i <= |xs| + 1 && 1 <= j <= |xs| + 1 && i != j
    ensures At(h, xs, i) != At(h, xs, j)
  {
  }

  // Putting an element in

  /** dl_queue_insert_after. */
  function Inserted(s: Store, a: Link, x: Link): Store
    requires a in s && x in s && s[a].next in s
  {
    var b := s[a].next;
    SetNext(SetPrev(SetPrev(SetNext(s, x, b), b, x), x, a), a, x)
  }

  function With(xs: seq<Link>, k: nat, x: Link): seq<Link>
    requires k <= |xs|
  {
    xs[..k] + [x] + xs[k..]
  }

  lemma InsertRing(s: Store, h: Link, xs: seq<Link>, k: nat, x: Link)
    requires Ring(s, h, xs) && k <= |xs| && x in s && x != h && x !in xs
    ensures At(h, xs, k) in s && s[At(h, xs, k)].next in s
    ensures Ring(Inserted(s, At(h, xs, k), x), h, With(xs, k, x))
  {
    assert Linked(s, h, xs, k);
    var s', ys := Inserted(s, At(h, xs, k), x), With(xs, k, x);
    WithDistinct(h, xs, k, x);
    forall i | 0 <= i <= |ys| ensures Linked(s', h, ys, i) {
      InsertLink(s, h, xs, k, x, i);
    }
  }

  lemma WithDistinct(h: Link, xs: seq<Link>, k: nat, x: Link)
    requires Distinct(h, xs) && k <= |xs| && x != h && x !in xs
    ensures Distinct(h, With(xs, k, x))
  {
    var ys := With(xs, k, x);
    forall i, j | 0 <= i < j < |ys| ensures ys[i] != ys[j] {
      if i == k { assert ys[j] == xs[j - 1]; }
      if j == k { assert ys[i] == xs[i]; }
    }
  }

  lemma InsertLink(s: Store, h: Link, xs: seq<Link>, k: nat, x: Link, i: nat)
    requires Ring(s, h, xs) && k <= |xs| && x in s && x != h && x !in xs && i <= |xs| + 1 && Linked(s, h, xs, k)
    ensures Linked(Inserted(s, At(h, xs, k), x), h, With(xs, k, x), i)
  {
    var ys := With(xs, k, x);
    assert At(h, ys, i) == if i <= k then At(h, xs, i) else if i == k + 1 then x else At(h, xs, i - 1);
    assert At(h, ys, i + 1) == if i < k then At(h, xs, i + 1) else if i == k then x else At(h, xs, i);
    if i < k {
      assert Linked(s, h, xs, i);
      AtApart(h, xs, i, k);
      Around(h, xs, i + 1, k + 1);
    }
    if i > k + 1 {
      assert Linked(s, h, xs, i - 1);
      AtApart(h, xs, i - 1, k);
      Around(h, xs, i, k + 1);
    }
  }

  // Going around

  lemma StepOn(s: Store, h: Link, xs: seq<Link>, i: nat)
    requires Ring(s, h, xs) && i <= |xs|
    ensures At(h, xs, i) in s && s[At(h, xs, i)].next == At(h, xs, i + 1)
    ensures i > 0 ==> s[At(h, xs, i)].prev == At(h, xs, i - 1)
    ensures i == 0 ==> s[h].prev == At(h, xs, |xs|)
  {
    assert Linked(s, h, xs, i);
    if i > 0 { assert Linked(s, h, xs, i - 1); } else { assert Linked(s, h, xs, |xs|); }
  }
}
