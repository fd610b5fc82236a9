/** How large the array part of a table is made, from how many integer keys fall between powers of two. */
module TableSizes {
  import opened Words

  const MAXBITS: nat := 26

  /** The largest size of an array part. */
  lemma LargestSize()
    ensures Pow2(MAXBITS) == 67108864
  {
    Pow2Values();
    assert Pow2(13) == 2 * Pow2(12);
    Pow2Add(13, 13);
  }

  /** Keys counted in the first `k` slices: those up to 2^(k-1). */
  function Count(nums: seq<nat>, k: nat): nat
    requires k <= |nums|
  {
    if k == 0 then 0 else Count(nums, k - 1) + nums[k - 1]
  }

  /** More than half of the places up to 2^i are taken. */
  predicate Worth(nums: seq<nat>, i: nat)
    requires i < |nums|
  {
    Count(nums, i + 1) > Pow2(i) / 2
  }

  ghost predicate LastWorth(nums: seq<nat>, i: nat)
    requires i < |nums|
  {
    Worth(nums, i) && forall j :: i < j < |nums| ==> !Worth(nums, j)
  }

  /** `n` is the largest power of two that is worth it, and `na` counts its keys. */
  ghost predicate Best(nums: seq<nat>, n: nat, na: nat) {
    if n == 0 then na == 0 && forall j :: 0 <= j < |nums| ==> !Worth(nums, j)
    else exists i :: 0 <= i < |nums| && LastWorth(nums, i) && n == Pow2(i) && na == Count(nums, i + 1)
  }

  /** The code asks only where a slice has keys of its own. */
  predicate Asked(nums: seq<nat>, i: nat)
    requires i < |nums|
  {
    nums[i] > 0 && Worth(nums, i)
  }

  ghost predicate LastAsked(nums: seq<nat>, k: nat, i: nat)
    requires i < k <= |nums|
  {
    Asked(nums, i) && forall j :: i < j < k ==> !Asked(nums, j)
  }

  /** What the loop has found after `k` slices. */
  ghost predicate Chosen(nums: seq<nat>, k: nat, n: nat, na: nat)
    requires k <= |nums|
  {
    if n == 0 then na == 0 && forall j :: 0 <= j < k ==> !Asked(nums, j)
    else exists i :: 0 <= i < k && LastAsked(nums, k, i) && n == Pow2(i) && na == Count(nums, i + 1)
  }

  /** Up to some power of two more keys are counted than there are numbers, and no slice behind it that has keys
      is worth it. */
  ghost predicate Crowded(nums: seq<nat>) {
    exists p :: 0 <= p < |nums| && CrowdedAt(nums, p)
  }

  ghost predicate CrowdedAt(nums: seq<nat>, p: nat)
    requires p < |nums|
  {
    Count(nums, p + 1) > Pow2(p) && forall j :: p < j < |nums| ==> !Asked(nums, j)
  }

  lemma {:induction false} CountGrows(nums: seq<nat>, j: nat, k: nat)
    requires j <= k <= |nums|
    ensures Count(nums, j) <= Count(nums, k)
    ensures Count(nums, j) == Count(nums, k) ==> forall i :: j <= i < k ==> nums[i] == 0
  {
    if j < k { CountGrows(nums, j, k - 1); }
  }

  /** The last slice up to `j` that has keys. */
  lemma {:induction false} LastKeys(nums: seq<nat>, j: nat) returns (l: nat)
    requires j < |nums| && Count(nums, j + 1) > 0
    ensures l <= j && nums[l] > 0 && Count(nums, l + 1) == Count(nums, j + 1)
  {
    l := j;
    if nums[j] == 0 { l := LastKeys(nums, j - 1); }
  }

  /** For every histogram: the last slice that has keys and is worth it decides. The keys counted fit into the
      size chosen exactly if the histogram is not crowded; the size chosen is the largest that is worth it exactly
      if they fit, or it is the largest there is. The array `nums` is never indexed past its end. */
  method ComputeSizes(nums: seq<nat>, narray: nat) returns (na: nat, n: nat)
    requires |nums| == MAXBITS + 1 && narray == Count(nums, |nums|)
    ensures Chosen(nums, |nums|, n, na) && (n > 0 ==> n / 2 < na)
    ensures na <= n <==> !Crowded(nums)
    ensures Best(nums, n, na) <==> na <= n || n == Pow2(MAXBITS)
  {
    var i, twotoi, a := 0, 1, 0;
    na, n := 0, 0;
    while twotoi / 2 < narray
      invariant i <= |nums| && twotoi == Pow2(i) && a == Count(nums, i) && Chosen(nums, i, n, na)
      invariant a < narray || narray == 0
      decreases |nums| - i
    {
      if nums[i] > 0 {
        a := a + nums[i];
        if a > twotoi / 2 {
          assert LastAsked(nums, i + 1, i);
          n, na := twotoi, a;
        } else {
          NotAsked(nums, i, n, na);
        }
      } else {
        NotAsked(nums, i, n, na);
      }
      i := i + 1;
      CountGrows(nums, i, |nums|);
      if a == narray { break; }
      twotoi := twotoi * 2;
    }
    NothingLarger(nums, i, n, na);
    WhenFits(nums, n, na);
    WhenBest(nums, n, na);
  }

  lemma NotAsked(nums: seq<nat>, k: nat, n: nat, na: nat)
    requires k < |nums| && Chosen(nums, k, n, na) && !Asked(nums, k)
    ensures Chosen(nums, k + 1, n, na)
  {
    if n > 0 {
      var i :| 0 <= i < k && LastAsked(nums, k, i) && n == Pow2(i) && na == Count(nums, i + 1);
      assert LastAsked(nums, k + 1, i);
    }
  }

  /** Once all keys are counted, or the size exceeds twice their number, nothing more is chosen. */
  lemma NothingLarger(nums: seq<nat>, k: nat, n: nat, na: nat)
    requires k <= |nums| && Chosen(nums, k, n, na)
    requires Count(nums, |nums|) <= Pow2(k) / 2 || Count(nums, k) == Count(nums, |nums|)
    ensures Chosen(nums, |nums|, n, na)
  {
    forall j | k <= j < |nums| ensures !Asked(nums, j) {
      CountGrows(nums, k, |nums|);
      CountGrows(nums, j + 1, |nums|);
      Pow2Grows(k, j);
    }
    if n > 0 {
      var i :| 0 <= i < k && LastAsked(nums, k, i) && n == Pow2(i) && na == Count(nums, i + 1);
      assert LastAsked(nums, |nums|, i);
    }
  }

  /** More keys than numbers are counted up to the size chosen, exactly if the histogram is crowded. */
  lemma WhenFits(nums: seq<nat>, n: nat, na: nat)
    requires Chosen(nums, |nums|, n, na)
    ensures (na <= n <==> !Crowded(nums)) && (n > 0 ==> n / 2 < na)
  {
    if n > 0 {
      var i :| 0 <= i < |nums| && LastAsked(nums, |nums|, i) && n == Pow2(i) && na == Count(nums, i + 1);
      if na > n { assert CrowdedAt(nums, i); }
    }
    if p :| 0 <= p < |nums| && CrowdedAt(nums, p) {
      var l := LastKeys(nums, p);
      Pow2Grows(l, p);
      assert Asked(nums, l);
      var i :| 0 <= i < |nums| && LastAsked(nums, |nums|, i) && n == Pow2(i) && na == Count(nums, i + 1);
      assert l <= i <= p;
      CountGrows(nums, l + 1, i + 1);
      CountGrows(nums, i + 1, p + 1);
      Pow2Grows(i, p);
    }
  }

  /** A size behind the one chosen that is worth it has no keys of its own, and so many below it that they do not
      fit into the size chosen. */
  lemma LargerNeedsMore(nums: seq<nat>, i: nat, j: nat)
    requires i < j < |nums| && LastAsked(nums, |nums|, i) && Worth(nums, j)
    ensures Count(nums, i + 1) > Pow2(i)
  {
    var l := LastKeys(nums, j);
    Pow2Grows(l, j);
    assert Asked(nums, l);
    CountGrows(nums, l + 1, i + 1);
    CountGrows(nums, i + 1, j + 1);
    Pow2Grows(i + 1, j);
  }

  lemma WhenBest(nums: seq<nat>, n: nat, na: nat)
    requires nums != [] && Chosen(nums, |nums|, n, na)
    ensures Best(nums, n, na) <==> na <= n || n == Pow2(|nums| - 1)
  {
    if n == 0 {
      if j :| 0 <= j < |nums| && Worth(nums, j) {
        var l := LastKeys(nums, j);
        Pow2Grows(l, j);
        assert Asked(nums, l);
      }
    } else {
      var i :| 0 <= i < |nums| && LastAsked(nums, |nums|, i) && n == Pow2(i) && na == Count(nums, i + 1);
      if i == |nums| - 1 {
        assert LastWorth(nums, i);
      } else {
        Pow2Grows(i + 1, |nums| - 1);
        if na <= n {
          forall j | i < j < |nums| ensures !Worth(nums, j) { if Worth(nums, j) { LargerNeedsMore(nums, i, j); } }
          assert LastWorth(nums, i);
        } else {
          assert Worth(nums, i + 1);
          if c :| 0 <= c < |nums| && LastWorth(nums, c) && n == Pow2(c) {
            if c > i { Pow2Grows(i + 1, c); }
          }
        }
      }
    }
  }

  /** Two keys in slice 0, as if both were 1: size 1 is chosen for both, although size 2 is worth it and has room. */
  lemma TwoInSliceZero(nums: seq<nat>, n: nat, na: nat)
    requires |nums| == MAXBITS + 1 && nums[0] == 2 && forall i :: 1 <= i < |nums| ==> nums[i] == 0
    requires Chosen(nums, |nums|, n, na)
    ensures na == 2 && n == 1 && Crowded(nums) && Worth(nums, 1) && !Best(nums, n, na)
  {
    OnlyFirst(nums, 1);
    OnlyFirst(nums, 2);
    assert Asked(nums, 0) && CrowdedAt(nums, 0);
    WhenBest(nums, n, na);
    Pow2Grows(0, MAXBITS - 1);
    assert Pow2(MAXBITS) == 2 * Pow2(MAXBITS - 1);
  }

  lemma {:induction false} OnlyFirst(nums: seq<nat>, k: nat)
    requires 0 < k <= |nums| && forall i :: 1 <= i < |nums| ==> nums[i] == 0
    ensures Count(nums, k) == nums[0]
  {
    if k > 1 { OnlyFirst(nums, k - 1); } else { assert Count(nums, 1) == Count(nums, 0) + nums[0]; }
  }

  // What the histogram stands for

  /** The keys up to `m`. */
  ghost function UpTo(keys: set<nat>, m: nat): set<nat> {
    set k | k in keys && k <= m
  }

  /** The keys of slice `i`: from 2^(i-1) + 1 to 2^i, or 1. */
  ghost function Slice(keys: set<nat>, i: nat): set<nat> {
    if i == 0 then UpTo(keys, 1) else UpTo(keys, Pow2(i)) - UpTo(keys, Pow2(i - 1))
  }

  ghost predicate InRange(keys: set<nat>) {
    forall k <- keys :: 1 <= k <= Pow2(MAXBITS)
  }

  /** The histogram counts the numbers in `a` and those in `b`; one that is in both is counted twice. */
  ghost predicate Counts(nums: seq<nat>, a: set<nat>, b: set<nat>) {
    && |nums| == MAXBITS + 1 && InRange(a) && InRange(b)
    && forall i {:trigger nums[i]} :: 0 <= i <= MAXBITS ==> nums[i] == |Slice(a, i)| + |Slice(b, i)|
  }

  lemma {:induction false} CountIsUpTo(nums: seq<nat>, a: set<nat>, b: set<nat>, i: nat)
    requires Counts(nums, a, b) && i <= MAXBITS
    ensures Count(nums, i + 1) == |UpTo(a, Pow2(i))| + |UpTo(b, Pow2(i))|
  {
    hide *;
    CountsAt(nums, a, b, i);
    SliceAdds(a, i);
    SliceAdds(b, i);
    CountMore(nums, i);
    if i > 0 { CountIsUpTo(nums, a, b, i - 1); }
  }

  lemma CountsAt(nums: seq<nat>, a: set<nat>, b: set<nat>, i: nat)
    requires Counts(nums, a, b) && i <= MAXBITS
    ensures i < |nums| && nums[i] == |Slice(a, i)| + |Slice(b, i)|
  {
  }

  lemma CountMore(nums: seq<nat>, i: nat)
    requires i < |nums|
    ensures Count(nums, 0) == 0 && Count(nums, i + 1) == Count(nums, i) + nums[i]
  {
  }

  lemma SliceAdds(a: set<nat>, i: nat)
    ensures |UpTo(a, Pow2(i))| == (if i == 0 then 0 else |UpTo(a, Pow2(i - 1))|) + |Slice(a, i)|
  {
    if i > 0 {
      var x, y := UpTo(a, Pow2(i - 1)), UpTo(a, Pow2(i));
      assert x <= y && y == x + (y - x);
    }
  }

  /** A set of numbers from 1 to `hi` has at most `hi` members. */
  lemma {:induction false} RangeSize(s: set<nat>, hi: nat)
    requires forall k <- s :: 1 <= k <= hi
    ensures |s| <= hi
  {
    if hi > 0 {
      RangeSize(s - {hi}, hi - 1);
    } else {
      assert s == {};
    }
  }

  /** A number counted twice is the only way to a crowded histogram. */
  lemma DistinctNotCrowded(nums: seq<nat>, a: set<nat>, b: set<nat>)
    requires Counts(nums, a, b) && a !! b
    ensures !Crowded(nums)
  {
    if p :| 0 <= p < |nums| && CrowdedAt(nums, p) {
      CountIsUpTo(nums, a, b, p);
      BothUpTo(a, b, Pow2(p));
      RangeSize(UpTo(a + b, Pow2(p)), Pow2(p));
    }
  }

  lemma BothUpTo(a: set<nat>, b: set<nat>, m: nat)
    requires a !! b
    ensures |UpTo(a + b, m)| == |UpTo(a, m)| + |UpTo(b, m)|
  {
    assert UpTo(a + b, m) == UpTo(a, m) + UpTo(b, m) && UpTo(a, m) !! UpTo(b, m);
  }

  /** More than half of the numbers from 1 to 2^j are keys. */
  ghost predicate HalfFull(keys: set<nat>, j: nat) {
    |UpTo(keys, Pow2(j))| > Pow2(j) / 2
  }

  /** `n` is the largest power of two, up to 2^26, such that more than half of 1 to `n` are keys, or zero. */
  ghost predicate LargestHalfFull(keys: set<nat>, n: nat) {
    && (n == 0 || exists i: nat :: i <= MAXBITS && n == Pow2(i) && HalfFull(keys, i))
    && forall j: nat :: j <= MAXBITS && HalfFull(keys, j) ==> Pow2(j) <= n
  }

  lemma WorthIsHalfFull(nums: seq<nat>, a: set<nat>, b: set<nat>, j: nat)
    requires Counts(nums, a, b) && a !! b && j <= MAXBITS
    ensures Worth(nums, j) <==> HalfFull(a + b, j)
  {
    CountIsUpTo(nums, a, b, j);
    BothUpTo(a, b, Pow2(j));
  }

  /** For every set of keys, each counted once, the best size is the largest that is more than half full. */
  lemma BestForKeys(nums: seq<nat>, a: set<nat>, b: set<nat>, n: nat, na: nat)
    requires Counts(nums, a, b) && a !! b && Best(nums, n, na)
    ensures LargestHalfFull(a + b, n)
  {
    forall j: nat | j <= MAXBITS ensures Worth(nums, j) <==> HalfFull(a + b, j) { WorthIsHalfFull(nums, a, b, j); }
    assert |nums| == MAXBITS + 1;
    hide HalfFull, Counts, Worth;
    if n > 0 {
      var i :| 0 <= i < |nums| && LastWorth(nums, i) && n == Pow2(i) && na == Count(nums, i + 1);
      forall j: nat | j <= MAXBITS && HalfFull(a + b, j) ensures Pow2(j) <= n { Pow2Grows(j, i); }
    }
  }

  /** How many numbers are counted up to the size chosen. */
  lemma ChosenCounts(nums: seq<nat>, a: set<nat>, b: set<nat>, n: nat, na: nat)
    requires Counts(nums, a, b) && Chosen(nums, |nums|, n, na)
    ensures na == |UpTo(a, n)| + |UpTo(b, n)|
  {
    if n > 0 {
      var i :| 0 <= i < |nums| && LastAsked(nums, |nums|, i) && n == Pow2(i) && na == Count(nums, i + 1);
      CountIsUpTo(nums, a, b, i);
    } else {
      assert UpTo(a, 0) == {} && UpTo(b, 0) == {};
    }
  }
}
