/** How the pages of a slab pool are divided into runs. Every page carries the run it belongs to. */
module Tiles {

  /** A free run, an allocated run of whole pages, or one page cut into the chunks of a slot. */
  datatype Kind = Free | Whole | Chunked(slot: nat)

  datatype Cell = Cell(head: nat, len: nat, kind: Kind)

  predicate InRun(r: Cell, p: int) {
    r.head <= p < r.head + r.len
  }

  /** Every page lies in exactly one run, inside the pool. */
  ghost predicate Tiled(c: seq<Cell>) {
    && (forall p {:trigger c[p]} :: 0 <= p < |c| ==> InRun(c[p], p) && c[p].head + c[p].len <= |c|)
    && (forall p, q {:trigger InRun(c[p], q)} ::
          0 <= p < |c| && 0 <= q < |c| && InRun(c[p], q) ==> c[q] == c[p])
  }

  /** No two different free runs touch. */
  ghost predicate Coalesced(c: seq<Cell>) {
    forall p {:trigger Joined(c, p)} :: 0 < p < |c| ==> Joined(c, p)
  }

  /** Pages `p - 1` and `p` are not in two different free runs. */
  predicate Joined(c: seq<Cell>, p: int)
    requires 0 < p < |c|
  {
    c[p - 1].kind.Free? && c[p].kind.Free? ==> c[p - 1] == c[p]
  }

  predicate FreeHead(c: seq<Cell>, p: int) {
    0 <= p < |c| && c[p].kind.Free? && c[p].head == p
  }

  function Paint(c: seq<Cell>, a: nat, l: nat, k: Kind): (r: seq<Cell>)
    requires a + l <= |c|
    ensures |r| == |c|
    ensures forall p :: 0 <= p < |c| ==> r[p] == if a <= p < a + l then Cell(a, l, k) else c[p]
  {
    seq(|c|, p requires 0 <= p < |c| => if a <= p < a + l then Cell(a, l, k) else c[p])
  }

  /** The tiling after the first `k` pages of the free run at `a` are taken. */
  function AllocCells(c: seq<Cell>, a: nat, k: nat): (r: seq<Cell>)
    requires Tiled(c) && FreeHead(c, a) && 0 < k <= c[a].len
    ensures |r| == |c|
    ensures forall p :: 0 <= p < |c| ==>
      r[p] == if a <= p < a + k then Cell(a, k, Whole)
              else if a + k <= p < a + c[a].len then Cell(a + k, c[a].len - k, Free)
              else c[p]
  {
    Paint(Paint(c, a, k, Whole), a + k, c[a].len - k, Free)
  }

  /** The first page of the free run that freeing the run at `a` produces. */
  function JoinStart(c: seq<Cell>, a: nat): (s: nat)
    requires Tiled(c) && a < |c| && c[a].head == a
    ensures s <= a
  {
    if a > 0 && c[a - 1].kind.Free? then c[a - 1].head else a
  }

  /** The page after the last one of that run. */
  function JoinEnd(c: seq<Cell>, a: nat): (e: nat)
    requires Tiled(c) && a < |c| && c[a].head == a
    ensures a + c[a].len <= e <= |c|
  {
    var e := a + c[a].len;
    if e < |c| && c[e].kind.Free? then c[e].head + c[e].len else e
  }

  /** The tiling after the run at `a` is freed and joined with its free neighbours. */
  function FreeCells(c: seq<Cell>, a: nat): (r: seq<Cell>)
    requires Tiled(c) && a < |c| && c[a].head == a
    ensures |r| == |c|
  {
    Paint(c, JoinStart(c, a), JoinEnd(c, a) - JoinStart(c, a), Free)
  }

  /** Runs do not overlap: a run starts right where the one before it ends. */
  lemma RunBefore(c: seq<Cell>, a: nat)
    requires Tiled(c) && 0 < a < |c| && c[a].head == a
    ensures c[a - 1].head + c[a - 1].len == a
  {
    assert InRun(c[a - 1], a - 1) && !InRun(c[a - 1], a);
  }

  lemma RunAfter(c: seq<Cell>, a: nat)
    requires Tiled(c) && a < |c| && c[a].head == a && a + c[a].len < |c|
    ensures c[a + c[a].len].head == a + c[a].len
  {
    var e := a + c[a].len;
    assert InRun(c[a], e - 1) && InRun(c[e], e);
    assert !InRun(c[e], e - 1);
  }

  lemma SameRun(c: seq<Cell>, p: int, q: int)
    requires Tiled(c) && 0 <= p < |c| && 0 <= q < |c|
    ensures InRun(c[p], q) ==> c[q] == c[p]
  {
  }

  lemma HeadIsOwn(c: seq<Cell>, p: nat)
    requires Tiled(c) && p < |c|
    ensures 0 <= c[p].head < |c| && c[c[p].head] == c[p]
  {
    assert InRun(c[p], p);
    assert InRun(c[p], c[p].head);
  }

  lemma AllocKeepsTiling(c: seq<Cell>, a: nat, k: nat)
    requires Tiled(c) && Coalesced(c) && FreeHead(c, a) && 0 < k <= c[a].len
    ensures Tiled(AllocCells(c, a, k)) && Coalesced(AllocCells(c, a, k))
  {
    var l := c[a].len;
    forall p | a <= p < a + l ensures c[p] == c[a] { assert InRun(c[a], p); }
    var d := Paint(c, a, k, Whole);
    var e := AllocCells(c, a, k);
    assert forall p :: 0 <= p < |c| && InRun(c[a], p) ==> c[p] == c[a];
    forall p, q | 0 <= p < |e| && 0 <= q < |e| && InRun(e[p], q) ensures e[q] == e[p] {
      assert InRun(c[p], q) ==> c[q] == c[p];
      assert InRun(c[q], p) ==> c[q] == c[p];
    }
    forall p | 0 < p < |e| ensures Joined(e, p) { assert Joined(c, p); }
  }

  /** The pages from `s` to `e` are a union of runs. */
  ghost predicate WholeRuns(c: seq<Cell>, s: int, e: int) {
    forall p {:trigger c[p]} :: 0 <= p < |c| && s <= p < e ==> s <= c[p].head && c[p].head + c[p].len <= e
  }

  lemma PaintKeepsTiling(c: seq<Cell>, a: nat, l: nat, k: Kind)
    requires Tiled(c) && 0 < l && a + l <= |c| && WholeRuns(c, a, a + l)
    ensures Tiled(Paint(c, a, l, k))
  {
    var d := Paint(c, a, l, k);
    forall p, q | 0 <= p < |d| && 0 <= q < |d| && InRun(d[p], q) ensures d[q] == d[p] {
      assert InRun(c[p], p) && InRun(c[q], q);
      assert InRun(c[p], q) ==> c[q] == c[p];
    }
  }

  /** A region that freeing joins consists of whole runs. */
  lemma JoinIsWholeRuns(c: seq<Cell>, a: nat)
    requires Tiled(c) && a < |c| && c[a].head == a
    ensures WholeRuns(c, JoinStart(c, a), JoinEnd(c, a))
    ensures forall p :: JoinStart(c, a) <= p < JoinEnd(c, a) ==> c[p].kind.Free? || InRun(c[a], p)
  {
    var s, e, m := JoinStart(c, a), JoinEnd(c, a), a + c[a].len;
    if a > 0 { RunBefore(c, a); HeadIsOwn(c, a - 1); }
    if m < |c| { RunAfter(c, a); }
    forall p | s <= p < e
      ensures s <= c[p].head && c[p].head + c[p].len <= e && (c[p].kind.Free? || InRun(c[a], p))
    {
      if p < a { assert InRun(c[a - 1], p); }
      else if p < m { assert InRun(c[a], p); }
      else { assert InRun(c[m], p); }
    }
  }

  /** Freeing leaves no free run beside the joined one. */
  lemma FreeKeepsTiling(c: seq<Cell>, a: nat)
    requires Tiled(c) && Coalesced(c) && a < |c| && c[a].head == a
    ensures Tiled(FreeCells(c, a)) && Coalesced(FreeCells(c, a))
  {
    JoinedRegion(c, a);
    hide Tiled, Coalesced, JoinStart, JoinEnd, Paint, WholeRuns;
    PaintFreeCoalesced(c, JoinStart(c, a), JoinEnd(c, a) - JoinStart(c, a));
    PaintKeepsTiling(c, JoinStart(c, a), JoinEnd(c, a) - JoinStart(c, a), Free);
  }

  /** A region that freeing joins is maximal. */
  lemma JoinedRegion(c: seq<Cell>, a: nat)
    requires Tiled(c) && Coalesced(c) && a < |c| && c[a].head == a
    ensures JoinStart(c, a) < JoinEnd(c, a) <= |c| && WholeRuns(c, JoinStart(c, a), JoinEnd(c, a))
    ensures JoinStart(c, a) > 0 ==> !c[JoinStart(c, a) - 1].kind.Free?
    ensures JoinEnd(c, a) < |c| ==> !c[JoinEnd(c, a)].kind.Free?
  {
    assert InRun(c[a], a) && JoinStart(c, a) < JoinEnd(c, a) <= |c|;
    hide Tiled, Coalesced, JoinStart, JoinEnd, WholeRuns;
    JoinIsWholeRuns(c, a);
    StartIsMaximal(c, a);
    EndIsMaximal(c, a);
  }

  lemma PaintFreeCoalesced(c: seq<Cell>, s: nat, l: nat)
    requires Coalesced(c) && s + l <= |c|
    requires (s == 0 || !c[s - 1].kind.Free?) && (s + l == |c| || !c[s + l].kind.Free?)
    ensures Coalesced(Paint(c, s, l, Free))
  {
    var d := Paint(c, s, l, Free);
    forall p | 0 < p < |d| ensures Joined(d, p) { assert Joined(c, p); }
  }

  lemma StartIsMaximal(c: seq<Cell>, a: nat)
    requires Tiled(c) && Coalesced(c) && a < |c| && c[a].head == a
    ensures JoinStart(c, a) > 0 ==> !c[JoinStart(c, a) - 1].kind.Free?
  {
    var s := JoinStart(c, a);
    if 0 < s < a {
      HeadIsOwn(c, a - 1);
      assert Joined(c, s);
      RunBefore(c, s);
    }
  }

  lemma EndIsMaximal(c: seq<Cell>, a: nat)
    requires Tiled(c) && Coalesced(c) && a < |c| && c[a].head == a
    ensures JoinEnd(c, a) < |c| ==> !c[JoinEnd(c, a)].kind.Free?
  {
    var m, e := a + c[a].len, JoinEnd(c, a);
    if m < e < |c| {
      RunAfter(c, a);
      RunAfter(c, m);
      assert InRun(c[m], e - 1);
      assert Joined(c, e);
    }
  }

  /** A coalesced tiling is determined by its allocated runs: the free runs are exactly the gaps. */
  lemma TilingIsCanonical(c: seq<Cell>, d: seq<Cell>)
    requires Tiled(c) && Coalesced(c) && Tiled(d) && Coalesced(d) && |c| == |d|
    requires forall p :: 0 <= p < |c| ==> (c[p].kind.Free? <==> d[p].kind.Free?)
    requires forall p :: 0 <= p < |c| && !c[p].kind.Free? ==> c[p] == d[p]
    ensures c == d
  {
    forall p | 0 <= p < |c| ensures c[p] == d[p] {
      if c[p].kind.Free? {
        FreeRunReaches(c, d, p);
        FreeRunReaches(d, c, p);
      }
    }
  }

  lemma FreeRunReaches(c: seq<Cell>, d: seq<Cell>, p: nat)
    requires Tiled(c) && Coalesced(c) && Tiled(d) && |c| == |d| && p < |c| && c[p].kind.Free?
    requires forall q :: 0 <= q < |c| ==> (c[q].kind.Free? <==> d[q].kind.Free?)
    ensures c[p].head <= d[p].head && d[p].head + d[p].len <= c[p].head + c[p].len
  {
    var h, e := c[p].head, c[p].head + c[p].len;
    HeadIsOwn(c, p);
    if h > 0 {
      assert Joined(c, h);
      RunBefore(c, h);
      SameRun(d, p, h - 1);
    }
    if e < |c| {
      RunAfter(c, h);
      assert InRun(c[p], e - 1);
      assert Joined(c, e);
      SameRun(d, p, e);
    }
    assert InRun(d[p], p) && InRun(c[p], p);
  }

  /** Freeing what was just allocated restores the pool's runs. */
  lemma FreeUndoesAlloc(c: seq<Cell>, a: nat, k: nat)
    requires Tiled(c) && Coalesced(c) && FreeHead(c, a) && 0 < k <= c[a].len
    ensures AllocCells(c, a, k)[a].head == a && Tiled(AllocCells(c, a, k))
    ensures FreeCells(AllocCells(c, a, k), a) == c
  {
    AllocKeepsTiling(c, a, k);
    var d := AllocCells(c, a, k);
    FreeKeepsTiling(d, a);
    FreedExactly(d, a);
    forall p | 0 <= p < |c| && InRun(c[a], p) ensures c[p] == c[a] {}
    TilingIsCanonical(FreeCells(d, a), c);
  }

  /** Freeing makes the run's own pages free and changes no allocated page. */
  lemma FreedExactly(c: seq<Cell>, a: nat)
    requires Tiled(c) && a < |c| && c[a].head == a
    ensures forall p :: 0 <= p < |c| ==> (FreeCells(c, a)[p].kind.Free? <==> c[p].kind.Free? || InRun(c[a], p))
    ensures forall p :: 0 <= p < |c| && !FreeCells(c, a)[p].kind.Free? ==> FreeCells(c, a)[p] == c[p]
  {
    JoinIsWholeRuns(c, a);
  }

  /** The order in which two runs are freed does not matter. */
  lemma FreesCommute(c: seq<Cell>, a: nat, b: nat)
    requires Tiled(c) && Coalesced(c) && a < |c| && b < |c| && c[a].head == a && c[b].head == b && a != b
    requires !c[a].kind.Free? && !c[b].kind.Free?
    ensures Tiled(FreeCells(c, a)) && FreeCells(c, a)[b] == c[b]
    ensures Tiled(FreeCells(c, b)) && FreeCells(c, b)[a] == c[a]
    ensures FreeCells(FreeCells(c, a), b) == FreeCells(FreeCells(c, b), a)
  {
    FreeOther(c, a, b);
    FreeOther(c, b, a);
    var ca, cb := FreeCells(c, a), FreeCells(c, b);
    FreeKeepsTiling(ca, b);
    FreeKeepsTiling(cb, a);
    FreedTwice(c, a, b);
    FreedTwice(c, b, a);
    TilingIsCanonical(FreeCells(ca, b), FreeCells(cb, a));
  }

  lemma FreeOther(c: seq<Cell>, a: nat, b: nat)
    requires Tiled(c) && Coalesced(c) && a < |c| && b < |c| && c[a].head == a && c[b].head == b && a != b
    requires !c[b].kind.Free?
    ensures Tiled(FreeCells(c, a)) && Coalesced(FreeCells(c, a)) && FreeCells(c, a)[b] == c[b]
  {
    FreeKeepsTiling(c, a);
    FreedExactly(c, a);
    SameRun(c, a, b);
  }

  lemma FreedTwice(c: seq<Cell>, a: nat, b: nat)
    requires Tiled(c) && Coalesced(c) && a < |c| && b < |c| && c[a].head == a && c[b].head == b && a != b
    requires !c[b].kind.Free? && Tiled(FreeCells(c, a)) && FreeCells(c, a)[b] == c[b]
    ensures forall p :: 0 <= p < |c| ==>
      (FreeCells(FreeCells(c, a), b)[p].kind.Free? <==> c[p].kind.Free? || InRun(c[a], p) || InRun(c[b], p))
    ensures forall p :: 0 <= p < |c| && !FreeCells(FreeCells(c, a), b)[p].kind.Free? ==>
      FreeCells(FreeCells(c, a), b)[p] == c[p]
  {
    FreedExactly(c, a);
    FreedExactly(FreeCells(c, a), b);
  }

  /** With nothing allocated, one free run covers the pool. */
  lemma AllFreeIsOneRun(c: seq<Cell>)
    requires Tiled(c) && Coalesced(c) && forall p :: 0 <= p < |c| ==> c[p].kind.Free?
    ensures forall p :: 0 <= p < |c| ==> c[p] == Cell(0, |c|, Free)
  {
    var d := seq(|c|, _ => Cell(0, |c|, Free));
    forall p | 0 < p < |d| ensures Joined(d, p) {}
    TilingIsCanonical(c, d);
  }

  /** The number of free pages. */
  function FreePages(c: seq<Cell>): nat {
    if c == [] then 0 else FreePages(c[..|c| - 1]) + if c[|c| - 1].kind.Free? then 1 else 0
  }

  lemma {:induction false} FreePagesAppend(c: seq<Cell>, d: seq<Cell>)
    ensures FreePages(c + d) == FreePages(c) + FreePages(d)
  {
    if d == [] {
      assert c + d == c;
    } else {
      FreePagesAppend(c, d[..|d| - 1]);
      assert (c + d)[..|c + d| - 1] == c + d[..|d| - 1];
    }
  }

  lemma {:induction false} FreePagesUniform(c: seq<Cell>, free: bool)
    requires forall p :: 0 <= p < |c| ==> c[p].kind.Free? == free
    ensures FreePages(c) == if free then |c| else 0
  {
    if c != [] { FreePagesUniform(c[..|c| - 1], free); }
  }

  /** Two tilings that differ, in which pages are free, only from `a` to `b`, where each is uniform. */
  lemma FreePagesChange(c: seq<Cell>, d: seq<Cell>, a: nat, b: nat, was: bool, now: bool)
    requires |c| == |d| && a <= b <= |c|
    requires forall p :: 0 <= p < |c| && !(a <= p < b) ==> c[p].kind.Free? == d[p].kind.Free?
    requires forall p :: a <= p < b ==> c[p].kind.Free? == was && d[p].kind.Free? == now
    ensures FreePages(d) == FreePages(c) + (if now then b - a else 0) - (if was then b - a else 0)
  {
    FreePagesInThree(c, a, b, was);
    FreePagesInThree(d, a, b, now);
    FreePagesAgree(c[..a], d[..a]);
    FreePagesAgree(c[b..], d[b..]);
  }

  lemma FreePagesInThree(c: seq<Cell>, a: nat, b: nat, free: bool)
    requires a <= b <= |c| && forall p :: a <= p < b ==> c[p].kind.Free? == free
    ensures FreePages(c) == FreePages(c[..a]) + (if free then b - a else 0) + FreePages(c[b..])
  {
    assert c == (c[..a] + c[a..b]) + c[b..];
    FreePagesAppend(c[..a] + c[a..b], c[b..]);
    FreePagesAppend(c[..a], c[a..b]);
    FreePagesUniform(c[a..b], free);
  }

  lemma {:induction false} FreePagesAgree(c: seq<Cell>, d: seq<Cell>)
    requires |c| == |d| && forall p :: 0 <= p < |c| ==> c[p].kind.Free? == d[p].kind.Free?
    ensures FreePages(c) == FreePages(d)
  {
    if c != [] { FreePagesAgree(c[..|c| - 1], d[..|d| - 1]); }
  }
}
