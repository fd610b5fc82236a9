/** Stable insertion sort on sequences: what dl_queue_sort does to the order of a queue. */
module QueueSort {
  import opened QueueRing

  /** Where `x` goes among sorted elements: behind the last one that is not behind it. */
  function Position(cmp: (Link, Link) -> int, ys: seq<Link>, x: Link): (k: nat)
    ensures k <= |ys|
  {
    if ys == [] then 0 else if cmp(ys[|ys| - 1], x) <= 0 then |ys| else Position(cmp, ys[..|ys| - 1], x)
  }

  function Sort(cmp: (Link, Link) -> int, xs: seq<Link>): seq<Link> {
    if xs == [] then [] else
      var ys, x := Sort(cmp, xs[..|xs| - 1]), xs[|xs| - 1];
      With(ys, Position(cmp, ys, x), x)
  }

  ghost predicate Sorted(cmp: (Link, Link) -> int, ys: seq<Link>) {
    forall i, j :: 0 <= i < j < |ys| ==> cmp(ys[i], ys[j]) <= 0
  }

  /** `a` comes before `b`. */
  predicate Precedes(ys: seq<Link>, a: Link, b: Link) {
    exists i, j :: 0 <= i < j < |ys| && ys[i] == a && ys[j] == b
  }

  lemma {:induction false} PositionIs(cmp: (Link, Link) -> int, ys: seq<Link>, x: Link)
    ensures var k := Position(cmp, ys, x);
      (k > 0 ==> cmp(ys[k - 1], x) <= 0) && forall i :: k <= i < |ys| ==> cmp(ys[i], x) > 0
  {
    if ys != [] && cmp(ys[|ys| - 1], x) > 0 {
      PositionIs(cmp, ys[..|ys| - 1], x);
      assert forall i :: 0 <= i < |ys| - 1 ==> ys[i] == ys[..|ys| - 1][i];
    }
  }

  lemma SortLast(cmp: (Link, Link) -> int, xs: seq<Link>)
    requires xs != []
    ensures var ys, x := Sort(cmp, xs[..|xs| - 1]), xs[|xs| - 1]; Sort(cmp, xs) == With(ys, Position(cmp, ys, x), x)
  {
  }

  lemma {:induction false} SortMembers(cmp: (Link, Link) -> int, xs: seq<Link>)
    ensures multiset(Sort(cmp, xs)) == multiset(xs) && |Sort(cmp, xs)| == |xs|
  {
    if xs != [] {
      var n := |xs| - 1;
      SortMembers(cmp, xs[..n]);
      var ys, x := Sort(cmp, xs[..n]), xs[n];
      var k := Position(cmp, ys, x);
      assert ys == ys[..k] + ys[k..];
      assert xs == xs[..n] + [x];
    }
  }

  /** `cmp` orders the links in a set. */
  ghost predicate Orders(cmp: (Link, Link) -> int, xs: set<Link>) {
    && (forall a, b :: a in xs && b in xs ==> cmp(a, b) <= 0 || cmp(b, a) <= 0)
    && (forall a, b, c :: a in xs && b in xs && c in xs && cmp(a, b) <= 0 && cmp(b, c) <= 0 ==> cmp(a, c) <= 0)
  }

  lemma Trans(cmp: (Link, Link) -> int, all: set<Link>, a: Link, b: Link, c: Link)
    requires Orders(cmp, all) && a in all && b in all && c in all && cmp(a, b) <= 0 && cmp(b, c) <= 0
    ensures cmp(a, c) <= 0
  {
  }

  lemma Total(cmp: (Link, Link) -> int, all: set<Link>, a: Link, b: Link)
    requires Orders(cmp, all) && a in all && b in all && cmp(a, b) > 0
    ensures cmp(b, a) <= 0
  {
  }

  /** Putting an element at its position keeps the rest sorted, and everything not behind it before it. */
  lemma PlacedSorted(cmp: (Link, Link) -> int, ys: seq<Link>, x: Link, all: set<Link>)
    requires Orders(cmp, all) && Sorted(cmp, ys) && x in all && forall y <- ys :: y in all
    ensures Sorted(cmp, With(ys, Position(cmp, ys, x), x))
  {
    var k := Position(cmp, ys, x);
    PositionIs(cmp, ys, x);
    forall i | 0 <= i < |ys| ensures if i < k then cmp(ys[i], x) <= 0 else cmp(x, ys[i]) <= 0 {
      BesidePosition(cmp, ys, x, all, k, i);
    }
    hide Orders, Position;
    SortedWith(cmp, ys, k, x);
  }

  lemma BesidePosition(cmp: (Link, Link) -> int, ys: seq<Link>, x: Link, all: set<Link>, k: nat, i: nat)
    requires Orders(cmp, all) && Sorted(cmp, ys) && x in all && (forall y <- ys :: y in all) && i < |ys| && k <= |ys|
    requires (k > 0 ==> cmp(ys[k - 1], x) <= 0) && forall m :: k <= m < |ys| ==> cmp(ys[m], x) > 0
    ensures if i < k then cmp(ys[i], x) <= 0 else cmp(x, ys[i]) <= 0
  {
    hide Orders;
    assert ys[i] in all;
    if i < k - 1 {
      assert ys[k - 1] in all && cmp(ys[i], ys[k - 1]) <= 0;
      Trans(cmp, all, ys[i], ys[k - 1], x);
    }
    if i >= k { Total(cmp, all, ys[i], x); }
  }

  lemma SortedWith(cmp: (Link, Link) -> int, ys: seq<Link>, k: nat, x: Link)
    requires k <= |ys| && Sorted(cmp, ys)
    requires forall i :: 0 <= i < |ys| ==> if i < k then cmp(ys[i], x) <= 0 else cmp(x, ys[i]) <= 0
    ensures Sorted(cmp, With(ys, k, x))
  {
    var zs := With(ys, k, x);
    forall i, j | 0 <= i < j < |zs| ensures cmp(zs[i], zs[j]) <= 0 {
      assert i != k ==> zs[i] == ys[if i < k then i else i - 1];
      assert j != k ==> zs[j] == ys[if j < k then j else j - 1];
    }
  }

  lemma {:induction false} SortSorted(cmp: (Link, Link) -> int, xs: seq<Link>, all: set<Link>)
    requires Orders(cmp, all) && forall x <- xs :: x in all
    ensures Sorted(cmp, Sort(cmp, xs)) && forall y <- Sort(cmp, xs) :: y in all
  {
    if xs != [] {
      var n := |xs| - 1;
      SortSorted(cmp, xs[..n], all);
      PlacedSorted(cmp, Sort(cmp, xs[..n]), xs[n], all);
    }
  }

  /** An element that came before another, and is not behind it, still comes before it: the sort is stable. */
  lemma {:induction false} SortStable(cmp: (Link, Link) -> int, xs: seq<Link>, all: set<Link>, i: nat, j: nat)
    requires Orders(cmp, all) && (forall x <- xs :: x in all) && i < j < |xs| && cmp(xs[i], xs[j]) <= 0
    ensures Precedes(Sort(cmp, xs), xs[i], xs[j])
    decreases |xs|
  {
    hide Orders, Sort, Position;
    var n := |xs| - 1;
    SortLast(cmp, xs);
    var ys, x := Sort(cmp, xs[..n]), xs[n];
    var k := Position(cmp, ys, x);
    if j < n {
      SortStable(cmp, xs[..n], all, i, j);
      StillPrecedes(ys, k, x, xs[i], xs[j]);
    } else {
      SortMembers(cmp, xs[..n]);
      PositionIs(cmp, ys, x);
      assert xs[i] == xs[..n][i] && xs[i] in multiset(xs[..n]) && xs[i] in multiset(ys);
      NotBehind(cmp, ys, k, xs[i], x);
    }
  }

  ghost function Elements(xs: seq<Link>): set<Link> {
    set x | x in xs
  }

  /** `ys` are the elements of `xs`, sorted, and elements that need not change places have not. */
  ghost predicate StablySorted(cmp: (Link, Link) -> int, xs: seq<Link>, ys: seq<Link>) {
    && multiset(ys) == multiset(xs) && Sorted(cmp, ys)
    && forall i, j :: 0 <= i < j < |xs| && cmp(xs[i], xs[j]) <= 0 ==> Precedes(ys, xs[i], xs[j])
  }

  /** For every order of the elements, this is a stable sort. */
  lemma SortSortsStably(cmp: (Link, Link) -> int, xs: seq<Link>)
    requires Orders(cmp, Elements(xs))
    ensures StablySorted(cmp, xs, Sort(cmp, xs))
  {
    SortMembers(cmp, xs);
    SortSorted(cmp, xs, Elements(xs));
    forall i, j | 0 <= i < j < |xs| && cmp(xs[i], xs[j]) <= 0 ensures Precedes(Sort(cmp, xs), xs[i], xs[j]) {
      SortStable(cmp, xs, Elements(xs), i, j);
    }
  }

  /** What is not behind `x` is before its position. */
  lemma NotBehind(cmp: (Link, Link) -> int, ys: seq<Link>, k: nat, a: Link, x: Link)
    requires k <= |ys| && a in ys && cmp(a, x) <= 0 && forall m :: k <= m < |ys| ==> cmp(ys[m], x) > 0
    ensures Precedes(With(ys, k, x), a, x)
  {
    var m :| 0 <= m < |ys| && ys[m] == a;
    var zs := With(ys, k, x);
    assert zs[m] == a && zs[k] == x;
  }

  lemma StillPrecedes(ys: seq<Link>, k: nat, x: Link, a: Link, b: Link)
    requires k <= |ys| && Precedes(ys, a, b)
    ensures Precedes(With(ys, k, x), a, b)
  {
    var i, j :| 0 <= i < j < |ys| && ys[i] == a && ys[j] == b;
    var zs := With(ys, k, x);
    assert zs[if i < k then i else i + 1] == a && zs[if j < k then j else j + 1] == b;
  }
}
