/** Facts about sequences that both kinds of search tree use for the order of their nodes. */
module Sequences {
  /** The parts around `b` go to the outer sequences on its sides. */
  lemma RegroupAround<T>(a: seq<T>, b: seq<T>, x: T, c: seq<T>, d: seq<T>)
    ensures a + (b + [x] + c) + d == a + b + ([x] + c + d)
    ensures a + (b + [x] + c) + d == (a + b + [x]) + c + d
  {
  }

  function First<T>(xs: seq<T>, none: T): T {
    if xs == [] then none else xs[0]
  }

  /** What follows position `i`. */
  function NextAt<T>(xs: seq<T>, i: nat, none: T): T
    requires i < |xs|
  {
    if i + 1 < |xs| then xs[i + 1] else none
  }

  /** What follows the middle of five parts is the first of those behind it. */
  lemma NextInMiddle<T>(a: seq<T>, b: seq<T>, x: T, c: seq<T>, d: seq<T>, none: T)
    ensures var xs, i := a + (b + [x] + c) + d, |a| + |b|;
      i < |xs| && xs[i] == x && NextAt(xs, i, none) == First(c + d, none)
  {
    assert a + (b + [x] + c) + d == (a + b) + [x] + (c + d);
  }
}
