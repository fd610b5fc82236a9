/** Sizing a table anew when its nodes are used up. Slot `i` of the array part holds the value of key `i`, but is
    counted as the number `i + 1`; the keys of the node part are counted as themselves. */
module TableRehash {
  import opened Words
  import opened TableSizes
  import FifoQueue

  datatype Key = Int(k: int) | Text

  /** The numbers that the used slots are counted as. */
  ghost function Slots(used: seq<bool>): set<nat> {
    set k: nat | k <= |used| && IsUsed(used, k)
  }

  predicate IsUsed(used: seq<bool>, k: nat) {
    1 <= k <= |used| && used[k - 1]
  }

  /** The integer keys from 1 to 2^26, the only ones counted. */
  ghost function Numbers(keys: seq<Key>): set<nat> {
    set k: nat | 1 <= k <= Pow2(MAXBITS) && Int(k) in keys
  }

  /** How a table keeps its keys: no integer key is there twice, and those below the array's size are in the array. */
  predicate Placed(used: seq<bool>, keys: seq<Key>) {
    && (forall i :: 0 <= i < |keys| && keys[i].Int? ==> keys[i].k < 0 || |used| <= keys[i].k)
    && Distinct(keys)
  }

  predicate Distinct(keys: seq<Key>) {
    forall i, j :: 0 <= i < j < |keys| && keys[i].Int? ==> keys[i] != keys[j]
  }

  predicate Counted(key: Key) {
    key.Int? && 0 < key.k <= Pow2(MAXBITS)
  }

  predicate InSlice(k: nat, i: nat) {
    if i == 0 then k <= 1 else Pow2(i - 1) < k <= Pow2(i)
  }

  // Counting

  /** The used slots, slice by slice. */
  method CountSlots(used: seq<bool>, nums: array<nat>) returns (ause: nat)
    requires nums.Length == MAXBITS + 1 && |used| <= Pow2(MAXBITS)
    modifies nums
    ensures Added(old(nums[..]), nums[..], Slots(used), MAXBITS + 1)
    ensures ause == |Slots(used)|
  {
    var lg, ttlg, i := 0, 1, 1;
    ause := 0;
    hide Slots, UpTo, Added;
    ghost var was := nums[..];
    AtStart(used);
    NoneAdded(was, Slots(used));
    while lg <= MAXBITS
      invariant lg <= MAXBITS + 1 && ttlg == Pow2(lg) && i == Least(Below(lg), |used|) + 1
      invariant ause == |UpTo(Slots(used), i - 1)|
      invariant Added(was, nums[..], Slots(used), lg)
    {
      var lim := ttlg;
      if lim > |used| {
        lim := |used|;
        if i > lim {
          RestAdded(was, nums[..], used, lg);
          break;
        }
      }
      BelowGrows(lg);
      var lc := CountRange(used, i, lim);
      i := lim + 1;
      SliceCounted(used, lg);
      SliceAdded(was, nums[..], Slots(used), lg);
      nums[lg] := nums[lg] + lc;
      ause := ause + lc;
      lg, ttlg := lg + 1, ttlg * 2;
    }
    if lg > MAXBITS { AllCounted(used, Below(lg)); } else { AllCounted(used, |used|); }
  }

  /** The first `k` slices of `s` were added to the histogram. */
  ghost predicate Added(was: seq<nat>, now: seq<nat>, s: set<nat>, k: nat) {
    && |was| == |now| == MAXBITS + 1
    && forall j {:trigger now[j]} :: 0 <= j <= MAXBITS ==> now[j] == was[j] + if j < k then |Slice(s, j)| else 0
  }

  lemma NoneAdded(was: seq<nat>, s: set<nat>)
    requires |was| == MAXBITS + 1
    ensures Added(was, was, s, 0)
  {
  }

  lemma SliceAdded(was: seq<nat>, now: seq<nat>, s: set<nat>, k: nat)
    requires Added(was, now, s, k) && k <= MAXBITS
    ensures Added(was, now[k := now[k] + |Slice(s, k)|], s, k + 1)
  {
    hide Slice;
  }

  lemma RestAdded(was: seq<nat>, now: seq<nat>, used: seq<bool>, lg: nat)
    requires Added(was, now, Slots(used), lg) && |used| <= Below(lg)
    ensures Added(was, now, Slots(used), MAXBITS + 1)
  {
    hide Slice, Slots;
    forall j: nat | lg <= j ensures |Slice(Slots(used), j)| == 0 { NoneLeft(used, lg, j); }
  }

  /** The used slots counted as `from` to `lim`. */
  method CountRange(used: seq<bool>, from: nat, lim: nat) returns (lc: nat)
    requires 1 <= from <= lim + 1 <= |used| + 1
    ensures lc == |UpTo(Slots(used), lim)| - |UpTo(Slots(used), from - 1)|
  {
    hide Slots, UpTo;
    var i := from;
    lc := 0;
    while i <= lim
      invariant from <= i <= lim + 1 && lc == |UpTo(Slots(used), i - 1)| - |UpTo(Slots(used), from - 1)|
    {
      NextSlot(used, i);
      if used[i - 1] { lc := lc + 1; }
      i := i + 1;
    }
  }

  function Least(a: nat, b: nat): nat {
    if a < b then a else b
  }

  /** The slices before `lg` hold the numbers up to here. */
  function Below(lg: nat): nat {
    if lg == 0 then 0 else Pow2(lg - 1)
  }

  lemma BelowGrows(lg: nat)
    ensures Below(lg) < Pow2(lg) == Below(lg + 1)
  {
  }

  lemma AtStart(used: seq<bool>)
    ensures UpTo(Slots(used), 0) == {}
  {
  }

  lemma NextSlot(used: seq<bool>, i: nat)
    requires 1 <= i <= |used|
    ensures |UpTo(Slots(used), i)| == |UpTo(Slots(used), i - 1)| + if used[i - 1] then 1 else 0
  {
    var s := UpTo(Slots(used), i - 1);
    assert i !in s && UpTo(Slots(used), i) == if used[i - 1] then s + {i} else s;
  }

  /** Cutting off at the number of slots loses nothing. */
  lemma AllCounted(used: seq<bool>, m: nat)
    ensures UpTo(Slots(used), Least(m, |used|)) == UpTo(Slots(used), m)
    ensures m >= |used| ==> UpTo(Slots(used), m) == Slots(used)
  {
  }

  lemma SliceCounted(used: seq<bool>, lg: nat)
    ensures |Slice(Slots(used), lg)| ==
      |UpTo(Slots(used), Least(Pow2(lg), |used|))| - |UpTo(Slots(used), Least(Below(lg), |used|))|
  {
    AllCounted(used, Pow2(lg));
    AllCounted(used, Below(lg));
    SliceAdds(Slots(used), lg);
    AtStart(used);
  }

  lemma NoneLeft(used: seq<bool>, lg: nat, j: nat)
    requires lg <= j && |used| <= Below(lg)
    ensures |Slice(Slots(used), j)| == 0
  {
    if lg > 0 { Pow2Grows(lg - 1, j - 1); }
    assert Slice(Slots(used), j) == {};
  }

  ghost predicate AddedKey(was: seq<nat>, now: seq<nat>, key: Key) {
    && |was| == |now| == MAXBITS + 1
    && forall j {:trigger now[j]} :: 0 <= j <= MAXBITS ==>
         now[j] == was[j] + if Counted(key) && InSlice(key.k, j) then 1 else 0
  }

  /** One key, if it is an integer in range, is counted in its slice. */
  method CountKey(key: Key, nums: array<nat>) returns (c: nat)
    requires nums.Length == MAXBITS + 1
    modifies nums
    ensures c == if Counted(key) then 1 else 0
    ensures AddedKey(old(nums[..]), nums[..], key)
  {
    if key.Int? && 0 < key.k <= Pow2(MAXBITS) {
      var lg := FifoQueue.RoundUp(key.k);
      if lg > MAXBITS { Pow2Grows(MAXBITS, lg - 1); }
      forall j: nat | InSlice(key.k, j) ensures j == lg { OneSlice(key.k, j, lg); }
      nums[lg] := nums[lg] + 1;
      return 1;
    }
    c := 0;
  }

  lemma OneSlice(k: nat, i: nat, j: nat)
    requires k >= 1 && InSlice(k, i) && InSlice(k, j)
    ensures i == j
  {
    if i < j { Pow2Grows(i, j - 1); } else if j < i { Pow2Grows(j, i - 1); }
  }

  /** The keys of the node part. */
  method CountNodes(nodes: seq<Key>, nums: array<nat>) returns (totaluse: nat, ause: nat)
    requires nums.Length == MAXBITS + 1 && Distinct(nodes)
    modifies nums
    ensures Added(old(nums[..]), nums[..], Numbers(nodes), MAXBITS + 1)
    ensures totaluse == |nodes| && ause == |Numbers(nodes)|
  {
    var i := |nodes|;
    totaluse, ause := 0, 0;
    hide Numbers, Slice;
    NoKeys();
    assert nodes[i..] == [];
    while i > 0
      invariant 0 <= i <= |nodes| && totaluse == |nodes| - i && ause == |Numbers(nodes[i..])|
      invariant forall j :: 0 <= j <= MAXBITS ==> nums[j] == old(nums[j]) + |Slice(Numbers(nodes[i..]), j)|
    {
      i := i - 1;
      assert nodes[i..] == [nodes[i]] + nodes[i + 1..];
      var c := CountKey(nodes[i], nums);
      OneMore(nodes[i], nodes[i + 1..]);
      ause, totaluse := ause + c, totaluse + 1;
      assert forall j :: 0 <= j <= MAXBITS ==> nums[..][j] == nums[j];
    }
    assert nodes[0..] == nodes;
  }

  lemma NoKeys()
    ensures Numbers([]) == {} && forall j: nat {:trigger Slice({}, j)} :: Slice({}, j) == {}
  {
  }

  lemma OneMore(key: Key, keys: seq<Key>)
    requires key.Int? ==> key !in keys
    ensures |Numbers([key] + keys)| == |Numbers(keys)| + if Counted(key) then 1 else 0
    ensures forall j: nat {:trigger Slice(Numbers([key] + keys), j)} ::
      |Slice(Numbers([key] + keys), j)| ==
      |Slice(Numbers(keys), j)| + if Counted(key) && InSlice(key.k, j) then 1 else 0
  {
    if Counted(key) {
      var k: nat, s := key.k, Numbers(keys);
      assert Numbers([key] + keys) == s + {k} && k !in s;
      forall j: nat ensures |Slice(s + {k}, j)| == |Slice(s, j)| + if InSlice(k, j) then 1 else 0 {
        OneMoreInSlice(s, k, j);
      }
    } else {
      assert Numbers([key] + keys) == Numbers(keys);
    }
  }

  lemma OneMoreInSlice(s: set<nat>, k: nat, j: nat)
    requires k !in s && k >= 1
    ensures |Slice(s + {k}, j)| == |Slice(s, j)| + if InSlice(k, j) then 1 else 0
  {
    if j > 0 { BelowGrows(j - 1); Pow2Grows(j - 1, j); }
    assert Slice(s + {k}, j) == (if InSlice(k, j) then Slice(s, j) + {k} else Slice(s, j));
  }

  // The new sizes

  /** How many used slots and other keys the array part of size `n` has no place for. */
  ghost function Outside(used: seq<bool>, keys: seq<Key>, n: nat): nat {
    |Slots(used) - UpTo(Slots(used), n)| + OutsideKeys(keys, n)
  }

  function OutsideKeys(keys: seq<Key>, n: nat): nat {
    if keys == [] then 0
    else (if keys[0].Int? && 0 <= keys[0].k < n then 0 else 1) + OutsideKeys(keys[1..], n)
  }

  /** The size chosen is itself a key of the node part: it is counted as one that goes into the array, but the array
      ends before it. A key 0 from the node part makes up for that, since it goes into the array uncounted. */
  predicate OneShort(keys: seq<Key>, n: nat) {
    n > 0 && Int(n) in keys && Int(0) !in keys
  }

  /** A used last slot is counted as the same number as a key of the node part. */
  predicate Shared(used: seq<bool>, keys: seq<Key>) {
    used != [] && used[|used| - 1] && Int(|used|) in keys
  }

  /** What the size of the array part is: the last slice that has keys and is worth it decides, as the keys are
      counted; and if no number is shared, it is the largest power of two that is more than half full. */
  ghost predicate Sized(used: seq<bool>, keys: seq<Key>, nums: seq<nat>, n: nat) {
    var a, b := Slots(used), Numbers(keys);
    && Counts(nums, a, b) && Chosen(nums, |nums|, n, |UpTo(a, n)| + |UpTo(b, n)|)
    && (Crowded(nums) ==> Shared(used, keys))
    && (!Shared(used, keys) ==> LargestHalfFull(a + b, n))
  }

  /** What the size of the node part is: a power of two, or none; or -1 if it would be too large. All keys have a
      place exactly if the nodes are not one short, or rounding up makes up for it. */
  ghost predicate Roomy(used: seq<bool>, keys: seq<Key>, n: nat, room: int) {
    var nhsize := Nodes(used, keys, n);
    && nhsize >= 0 && (room == -1 <==> nhsize > Pow2(MAXBITS)) && (room != -1 ==> RoundedUp(nhsize, room))
    && (room != -1 ==> (Outside(used, keys, n) <= room <==> !(OneShort(keys, n) && room == nhsize)))
  }

  /** The sizes of a table whose keys are those of the used slots and of the nodes, and a new one. */
  method Rehash(used: seq<bool>, nodes: seq<Key>, key: Key) returns (nasize: nat, room: int, ghost nums: seq<nat>)
    requires |used| <= Pow2(MAXBITS) && Placed(used, nodes + [key])
    ensures Sized(used, nodes + [key], nums, nasize) && Roomy(used, nodes + [key], nasize, room)
  {
    ghost var keys := nodes + [key];
    var counts, ause, totaluse := CountAll(used, nodes, key);
    nums := counts;
    hide Placed, Slots, Numbers, Counts, Crowded, Chosen, Best, Count, UpTo, Sized, Roomy, RoundedUp;
    var na, n := ComputeSizes(counts, ause);
    nasize := n;
    IsSized(used, keys, nums, n, na);
    room := NodeRoom(totaluse - na);
    IsRoomy(used, keys, n, room);
  }

  lemma IsSized(used: seq<bool>, keys: seq<Key>, nums: seq<nat>, n: nat, na: nat)
    requires |used| <= Pow2(MAXBITS) && Placed(used, keys) && Counts(nums, Slots(used), Numbers(keys))
    requires Chosen(nums, |nums|, n, na) && (Best(nums, n, na) <==> na <= n || n == Pow2(MAXBITS))
    requires na <= n <==> !Crowded(nums)
    ensures Sized(used, keys, nums, n) && n <= Pow2(MAXBITS)
    ensures Nodes(used, keys, n) == |Slots(used)| + |keys| - na >= 0
  {
    ChosenCounts(nums, Slots(used), Numbers(keys), n, na);
    NotShared(used, keys, nums, n, na);
    SizeInRange(nums, n, na);
    hide Slots, Numbers, UpTo, Counts, Crowded, Chosen, Best, LargestHalfFull, Shared;
    NodesNeeded(used, keys, n);
  }

  lemma IsRoomy(used: seq<bool>, keys: seq<Key>, n: nat, room: int)
    requires Distinct(keys) && n <= Pow2(MAXBITS)
    requires var nhsize := Nodes(used, keys, n);
      && nhsize >= 0 && (room == -1 <==> nhsize > Pow2(MAXBITS))
      && (room != -1 ==> room >= nhsize && RoundedUp(nhsize, room))
    ensures Roomy(used, keys, n, room)
  {
    hide Distinct, Outside, Nodes, RoundedUp;
    NodesNeeded(used, keys, n);
  }

  /** All keys, the new one too: how many fall into each slice, how many are counted there, and how many there are. */
  method CountAll(used: seq<bool>, nodes: seq<Key>, key: Key) returns (nums: seq<nat>, ause: nat, totaluse: nat)
    requires |used| <= Pow2(MAXBITS) && Placed(used, nodes + [key])
    ensures Counts(nums, Slots(used), Numbers(nodes + [key])) && ause == Count(nums, |nums|)
    ensures totaluse == |Slots(used)| + |nodes + [key]| && Distinct(nodes + [key])
  {
    var counts := new nat[MAXBITS + 1](_ => 0);
    LastKey(nodes, key);
    hide Slots, Numbers, Slice, Added, AddedKey, Counts, Distinct;
    ghost var c0 := counts[..];
    var inArray := CountSlots(used, counts);
    ghost var c1 := counts[..];
    var total, more := CountNodes(nodes, counts);
    ghost var c2 := counts[..];
    var last := CountKey(key, counts);
    nums, ause, totaluse := counts[..], inArray + more + last, inArray + total + 1;
    AllAdded(used, nodes, key, c0, c1, c2, nums);
    AllKeysCounted(nums, Slots(used), Numbers(nodes + [key]));
  }

  /** What was added to an empty histogram is what it counts. */
  lemma AllAdded(used: seq<bool>, nodes: seq<Key>, key: Key, c0: seq<nat>, c1: seq<nat>, c2: seq<nat>, c3: seq<nat>)
    requires |used| <= Pow2(MAXBITS) && Distinct(nodes + [key]) && forall j :: 0 <= j < |c0| ==> c0[j] == 0
    requires Added(c0, c1, Slots(used), MAXBITS + 1) && Added(c1, c2, Numbers(nodes), MAXBITS + 1)
    requires AddedKey(c2, c3, key)
    ensures Counts(c3, Slots(used), Numbers(nodes + [key]))
  {
    LastKey(nodes, key);
    NumbersInRange(used, nodes + [key]);
    hide Slots, Numbers, Slice, InSlice, InRange, Distinct, Counted;
  }

  /** `room` is nothing for no nodes, or else the least power of two that is enough. */
  ghost predicate RoundedUp(nhsize: nat, room: int) {
    if nhsize == 0 then room == 0
    else exists bits: nat :: room == Pow2(bits) && FifoQueue.LeastPower(bits, nhsize)
  }

  /** The size of the node part: the least power of two that is enough, or none. */
  method NodeRoom(nhsize: nat) returns (room: int)
    ensures room == -1 <==> nhsize > Pow2(MAXBITS)
    ensures room != -1 ==> room >= nhsize && RoundedUp(nhsize, room)
  {
    if nhsize == 0 { return 0; }
    var lsize := FifoQueue.RoundUp(nhsize);
    if lsize > MAXBITS {
      Pow2Grows(MAXBITS, lsize - 1);
      return -1;
    }
    Pow2Grows(lsize, MAXBITS);
    room := Pow2(lsize);
  }

  /** The nodes asked for: all keys but those counted as going into the array. */
  ghost function Nodes(used: seq<bool>, keys: seq<Key>, n: nat): int {
    |Slots(used)| + |keys| - (|UpTo(Slots(used), n)| + |UpTo(Numbers(keys), n)|)
  }

  lemma LastKey(nodes: seq<Key>, key: Key)
    requires Distinct(nodes + [key])
    ensures Distinct(nodes) && |Numbers(nodes + [key])| == |Numbers(nodes)| + if Counted(key) then 1 else 0
    ensures forall j: nat {:trigger Slice(Numbers(nodes + [key]), j)} ::
      |Slice(Numbers(nodes + [key]), j)| ==
      |Slice(Numbers(nodes), j)| + if Counted(key) && InSlice(key.k, j) then 1 else 0
  {
    var all := nodes + [key];
    forall i, j | 0 <= i < j < |nodes| && nodes[i].Int? ensures nodes[i] != nodes[j] {
      assert all[i] == nodes[i] && all[j] == nodes[j];
    }
    forall i | 0 <= i < |nodes| ensures !(key.Int? && nodes[i] == key) {
      assert all[i] == nodes[i] && all[|nodes|] == key;
    }
    OneMore(key, nodes);
    assert Numbers([key] + nodes) == Numbers(all);
  }

  lemma NumbersInRange(used: seq<bool>, keys: seq<Key>)
    requires |used| <= Pow2(MAXBITS)
    ensures InRange(Slots(used)) && InRange(Numbers(keys))
  {
  }

  lemma AllKeysCounted(nums: seq<nat>, a: set<nat>, b: set<nat>)
    requires Counts(nums, a, b)
    ensures Count(nums, |nums|) == |a| + |b|
  {
    CountIsUpTo(nums, a, b, MAXBITS);
    assert UpTo(a, Pow2(MAXBITS)) == a && UpTo(b, Pow2(MAXBITS)) == b;
  }

  lemma SizeInRange(nums: seq<nat>, n: nat, na: nat)
    requires |nums| == MAXBITS + 1 && Chosen(nums, |nums|, n, na)
    ensures n <= Pow2(MAXBITS)
  {
    if n > 0 {
      var i :| 0 <= i < |nums| && LastAsked(nums, |nums|, i) && n == Pow2(i) && na == Count(nums, i + 1);
      Pow2Grows(i, MAXBITS);
    }
  }

  /** No number is counted twice, unless it is the shared one. */
  lemma NotShared(used: seq<bool>, keys: seq<Key>, nums: seq<nat>, n: nat, na: nat)
    requires |used| <= Pow2(MAXBITS) && Placed(used, keys) && Counts(nums, Slots(used), Numbers(keys))
    requires Chosen(nums, |nums|, n, na) && (Best(nums, n, na) <==> na <= n || n == Pow2(MAXBITS))
    requires na <= n <==> !Crowded(nums)
    ensures Crowded(nums) ==> Shared(used, keys)
    ensures !Shared(used, keys) ==> LargestHalfFull(Slots(used) + Numbers(keys), n)
  {
    if !Shared(used, keys) {
      NoOverlap(used, keys);
      hide Placed, Slots, Numbers, Counts, Best, Chosen, Crowded, LargestHalfFull;
      DistinctNotCrowded(nums, Slots(used), Numbers(keys));
      BestForKeys(nums, Slots(used), Numbers(keys), n, na);
    }
  }

  lemma NoOverlap(used: seq<bool>, keys: seq<Key>)
    requires Placed(used, keys) && !Shared(used, keys)
    ensures Slots(used) !! Numbers(keys)
  {
    forall k: nat | IsUsed(used, k) ensures Int(k) !in keys {}
  }

  /** The integer keys that an array of size `n` has a place for. */
  ghost function Inside(keys: seq<Key>, n: nat): set<nat> {
    set k: nat | k < n && Int(k) in keys
  }

  lemma {:induction false} OutsideCounts(keys: seq<Key>, n: nat)
    requires Distinct(keys)
    ensures OutsideKeys(keys, n) + |Inside(keys, n)| == |keys|
  {
    if keys == [] {
      assert Inside(keys, n) == {};
    } else {
      var rest := keys[1..];
      OutsideCounts(rest, n);
      if keys[0].Int? && 0 <= keys[0].k < n {
        var k: nat := keys[0].k;
        assert Int(k) !in rest;
        assert Inside(keys, n) == Inside(rest, n) + {k} && k !in Inside(rest, n);
      } else {
        assert Inside(keys, n) == Inside(rest, n);
      }
    }
  }

  /** Those counted up to `n` are those with a place, but for `n` itself and 0. */
  lemma CountedInside(keys: seq<Key>, n: nat)
    requires 0 < n <= Pow2(MAXBITS)
    ensures |UpTo(Numbers(keys), n)| + (if Int(0) in keys then 1 else 0) ==
      |Inside(keys, n)| + if Int(n) in keys then 1 else 0
  {
    var x, y := UpTo(Numbers(keys), n), Inside(keys, n);
    var both := Between(keys, n);
    ButLast(keys, n);
    ButZero(keys, n);
    hide Numbers, UpTo, Inside;
    WithOne(both, x, n, Int(n) in keys);
    WithOne(both, y, 0, Int(0) in keys);
  }

  ghost function Between(keys: seq<Key>, n: nat): set<nat> {
    set k: nat | 1 <= k < n && Int(k) in keys
  }

  lemma ButLast(keys: seq<Key>, n: nat)
    requires 0 < n <= Pow2(MAXBITS)
    ensures UpTo(Numbers(keys), n) == if Int(n) in keys then Between(keys, n) + {n} else Between(keys, n)
  {
  }

  lemma ButZero(keys: seq<Key>, n: nat)
    requires n > 0
    ensures Inside(keys, n) == if Int(0) in keys then Between(keys, n) + {0} else Between(keys, n)
  {
  }

  lemma WithOne(s: set<nat>, t: set<nat>, e: nat, added: bool)
    requires e !in s && t == if added then s + {e} else s
    ensures |t| == |s| + if added then 1 else 0
  {
  }

  lemma NodesNeeded(used: seq<bool>, keys: seq<Key>, n: nat)
    requires Distinct(keys) && n <= Pow2(MAXBITS)
    ensures Nodes(used, keys, n) >= 0
    ensures Outside(used, keys, n) == Nodes(used, keys, n) +
      if n == 0 then 0 else (if Int(n) in keys then 1 else 0) - if Int(0) in keys then 1 else 0
  {
    var s := Slots(used);
    var t := UpTo(s, n);
    assert s == t + (s - t);
    OutsideCounts(keys, n);
    if n > 0 {
      CountedInside(keys, n);
      CountedAtMost(keys, n);
    } else {
      assert UpTo(Numbers(keys), 0) == {} && Inside(keys, 0) == {};
    }
  }

  /** At most all keys are counted. */
  lemma CountedAtMost(keys: seq<Key>, n: nat)
    requires Distinct(keys)
    ensures |UpTo(Numbers(keys), n)| <= |keys|
  {
    OutsideCounts(keys, n + 1);
    var x, y := UpTo(Numbers(keys), n), Inside(keys, n + 1);
    assert y == x + (y - x);
  }

  // Where it goes wrong

  /** The first key of an empty table is 1: the array is made of size 1, whose only slot is for key 0, and there is
      no node. So there is still no place for the key, and sizing the table again changes nothing. */
  method FirstKeyStuck() returns (nasize: nat, room: int, nasize2: nat, room2: int)
    ensures nasize == nasize2 == 1 && room == room2 == 0 && Outside([false], [Int(1)], 1) == 1
  {
    ghost var nums;
    OnlyKeyOne([]);
    nasize, room, nums := Rehash([], [], Int(1));
    OnlyKeyOne([false]);
    nasize2, room2, nums := Rehash([false], [], Int(1));
  }

  /** Key 0 is in the only slot, and key 1 is new: both are counted as 1, so that size 1 is chosen for both of them. */
  method SharedNumber() returns (nasize: nat, room: int, ghost nums: seq<nat>)
    ensures nasize == 1 && room == 0 && Outside([true], [Int(1)], 1) == 1
    ensures Counts(nums, {1}, {1}) && Crowded(nums) && Worth(nums, 1) && !Best(nums, 1, 2)
  {
    BothAreOne();
    SlicesOfOne();
    nasize, room, nums := Rehash([true], [], Int(1));
    hide Slice, UpTo, Chosen, Crowded, Best, Nodes, Outside;
    TwoInSliceZero(nums, nasize, |UpTo({1}, nasize)| + |UpTo({1}, nasize)|);
  }

  lemma BothAreOne()
    ensures Slots([true]) == {1} && [] + [Int(1)] == [Int(1)] && Numbers([Int(1)]) == {1} && Placed([true], [Int(1)])
    ensures Nodes([true], [Int(1)], 1) == 0 && Outside([true], [Int(1)], 1) == 1
  {
    Pow2Grows(0, MAXBITS);
    var used, keys := [true], [Int(1)];
    var s, t := Slots(used), Numbers(keys);
    assert IsUsed(used, 1) && 1 in s && s == {1} && UpTo(s, 1) == {1} && s - UpTo(s, 1) == {};
    assert 1 in t && t == {1} && UpTo(t, 1) == {1};
    assert keys[1..] == [] && OutsideKeys(keys[1..], 1) == 0;
  }

  lemma SlicesOfOne()
    ensures |Slice({1}, 0)| == 1 && forall j: nat {:trigger Slice({1}, j)} :: j > 0 ==> |Slice({1}, j)| == 0
  {
    assert UpTo({1}, 1) == {1};
    forall j: nat | j > 0 ensures Slice({1}, j) == {} { Pow2Grows(0, j - 1); }
  }

  lemma OnlyKeyOne(used: seq<bool>)
    requires used == [] || used == [false]
    ensures Slots(used) == {} && [] + [Int(1)] == [Int(1)] && Numbers([Int(1)]) == {1} && Placed(used, [Int(1)])
    ensures {} + {1} == {1} && forall n {:trigger LargestHalfFull({1}, n)} :: LargestHalfFull({1}, n) ==> n == 1
    ensures Nodes(used, [Int(1)], 1) == 0 && Outside(used, [Int(1)], 1) == 1
  {
    Pow2Grows(0, MAXBITS);
    forall j: nat ensures HalfFull({1}, j) <==> j == 0 { OnlyOneHalfFull(j); }
    OneUpToOne(used);
    hide HalfFull;
    assert Pow2(0) == 1 && HalfFull({1}, 0);
  }

  lemma OneUpToOne(used: seq<bool>)
    requires used == [] || used == [false]
    ensures Slots(used) == {} && Numbers([Int(1)]) == {1}
    ensures Nodes(used, [Int(1)], 1) == 0 && Outside(used, [Int(1)], 1) == 1
  {
    Pow2Grows(0, MAXBITS);
    var s, keys := Slots(used), [Int(1)];
    var t := Numbers(keys);
    assert s == {} && UpTo(s, 1) == {} && s - UpTo(s, 1) == {};
    assert 1 in t && t == {1} && UpTo(t, 1) == {1};
    assert keys[1..] == [] && OutsideKeys(keys[1..], 1) == 0;
  }

  lemma OnlyOneHalfFull(j: nat)
    ensures HalfFull({1}, j) <==> j == 0
  {
    Pow2Grows(0, j);
    assert UpTo({1}, Pow2(j)) == {1};
    if j > 0 { Pow2Grows(0, j - 1); }
  }
}
