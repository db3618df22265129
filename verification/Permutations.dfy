/** The immediate lexicographic successor of an arrangement: the three forms of next-permutation in
    exercises/leetcode/31-next-permutation.cpp and exercises/permute_lexigraphical.cpp. */
module Permutations {
  import opened Basics

  // ----- rearrangements

  predicate Rearranged(s: seq<int>, t: seq<int>) { multiset(s) == multiset(t) }

  predicate Falling(s: seq<int>) { forall i, j :: 0 <= i < j < |s| ==> s[i] >= s[j] }

  predicate Rising(s: seq<int>) { forall i, j :: 0 <= i < j < |s| ==> s[i] <= s[j] }

  lemma RearrangedTail(s: seq<int>, t: seq<int>)
    requires s != [] && t != [] && s[0] == t[0] && Rearranged(s, t)
    ensures Rearranged(s[1..], t[1..])
  {
    assert s == [s[0]] + s[1..] && t == [t[0]] + t[1..];
    assert multiset(s[1..]) == multiset(s) - multiset{s[0]};
    assert multiset(t[1..]) == multiset(t) - multiset{t[0]};
  }

  lemma RearrangedSplit(prefix: seq<int>, s: seq<int>, t: seq<int>)
    requires Rearranged(prefix + s, prefix + t)
    ensures Rearranged(s, t)
  {
    assert multiset(s) == multiset(prefix + s) - multiset(prefix);
    assert multiset(t) == multiset(prefix + t) - multiset(prefix);
  }

  /** A falling arrangement is the last of its rearrangements. */
  lemma {:induction false} FallingIsLast(s: seq<int>, t: seq<int>)
    requires Falling(s) && Rearranged(s, t)
    ensures !Less(s, t)
    decreases |s|
  {
    if s == [] {
      assert |multiset(t)| == 0;
    } else if Less(s, t) {
      assert t[0] in multiset(s);
      if s[0] == t[0] {
        RearrangedTail(s, t);
        FallingIsLast(s[1..], t[1..]);
      }
    }
  }

  /** A rising arrangement is the first. */
  lemma {:induction false} RisingIsFirst(s: seq<int>, t: seq<int>)
    requires Rising(s) && Rearranged(s, t)
    ensures !Less(t, s)
    decreases |s|
  {
    if s != [] {
      assert s[0] in multiset(t);
      if Less(t, s) {
        assert t[0] in multiset(s);
        if s[0] == t[0] {
          RearrangedTail(s, t);
          RisingIsFirst(s[1..], t[1..]);
        }
      }
    }
  }

  // ----- the specification

  ghost predicate HasLater(s: seq<int>) { exists u :: Rearranged(s, u) && Less(s, u) }

  /** t is the next arrangement after s: the least of the later ones, and the rising one after the last. */
  ghost predicate IsNext(s: seq<int>, t: seq<int>) {
    Rearranged(s, t) &&
    if HasLater(s) then
      Less(s, t) && forall u :: Rearranged(s, u) && Less(s, u) ==> !Less(u, t)
    else Rising(t)
  }

  /** IsNext leaves no choice, so any two methods that promise it agree. */
  lemma NextIsUnique(s: seq<int>, t: seq<int>, t': seq<int>)
    requires IsNext(s, t) && IsNext(s, t')
    ensures t == t'
  {
    LessTotal(t, t');
    if !HasLater(s) {
      RisingIsFirst(t, t');
      RisingIsFirst(t', t);
    }
  }

  // ----- why the algorithm is right

  /** i is the pivot: everything after it falls, and it is below its neighbour. */
  predicate IsPivot(s: seq<int>, i: nat) { i + 1 < |s| && Falling(s[i + 1..]) && s[i] < s[i + 1] }

  /** j is the last position after the pivot with a larger value. */
  predicate IsSwap(s: seq<int>, i: nat, j: nat) {
    i < j < |s| && s[i] < s[j] && forall k :: j < k < |s| ==> s[k] <= s[i]
  }

  lemma WholeFalls(s: seq<int>, t: seq<int>)
    requires Falling(s) && t == Reverse(s)
    ensures !HasLater(s) && IsNext(s, t)
  {
    ReverseKeeps(s);
    forall u | Rearranged(s, u) ensures !Less(s, u) { FallingIsLast(s, u); }
  }

  /** x takes the place of the last larger value of a falling tail, which then still falls. */
  lemma ReplacedFalls(tail: seq<int>, k: nat, x: int)
    requires k < |tail| && Falling(tail) && tail[k] > x && forall l :: k < l < |tail| ==> tail[l] <= x
    ensures Falling(tail[k := x])
  {}

  lemma ReplacedRearranges(tail: seq<int>, k: nat, x: int)
    requires k < |tail|
    ensures Rearranged([x] + tail, [tail[k]] + tail[k := x])
  {}

  lemma FallingReversed(s: seq<int>, r: seq<int>)
    requires Falling(s) && r == Reverse(s)
    ensures Rising(r)
  {}

  /** The tail after pivot and swap rises once reversed. */
  lemma SwappedTail(s: seq<int>, i: nat, j: nat, r: seq<int>)
    requires IsPivot(s, i) && IsSwap(s, i, j)
    requires r == Reverse(s[i + 1..][j - i - 1 := s[i]])
    ensures Rising(r) && Rearranged(s[i..], [s[j]] + r)
  {
    hide Falling, Rising, Rearranged;
    var tail, k := s[i + 1..], j - i - 1;
    ReplacedFalls(tail, k, s[i]);
    ReplacedRearranges(tail, k, s[i]);
    FallingReversed(tail[k := s[i]], r);
    ReverseKeeps(tail[k := s[i]]);
    assert s[i..] == [s[i]] + tail;
    RearrangedBehind(s[i..], s[j], tail[k := s[i]], r);
  }

  lemma RearrangedBehind(s: seq<int>, x: int, t: seq<int>, u: seq<int>)
    requires Rearranged(s, [x] + t) && Rearranged(t, u)
    ensures Rearranged(s, [x] + u)
  {}

  /** A later rearrangement u of the part from the pivot on, at or before the new part, starts with the
      pivot or with the value that takes its place. */
  lemma FirstOfTail(s: seq<int>, i: nat, j: nat, after: seq<int>, u: seq<int>)
    requires IsPivot(s, i) && IsSwap(s, i, j) && after != [] && after[0] == s[j]
    requires Rearranged(s[i..], u) && Less(s[i..], u) && Less(u, after)
    ensures u != [] && (u[0] == s[i] || u[0] == s[j])
  {
    assert s[i..][0] == s[i] && u != [] && s[i] <= u[0] <= s[j];
    assert u[0] in multiset(s[i..]);
    var k :| i <= k < |s| && s[k] == u[0];
    if i < k < j {
      var tail := s[i + 1..];
      assert tail[k - i - 1] >= tail[j - i - 1];
    }
  }

  /** With the pivot first, the rest falls and has no later rearrangement. */
  lemma NotPivotFirst(s: seq<int>, i: nat, u: seq<int>)
    requires IsPivot(s, i) && Rearranged(s[i..], u) && Less(s[i..], u)
    ensures u != [] && u[0] != s[i]
  {
    var tail := s[i + 1..];
    assert s[i..][0] == s[i] && s[i..][1..] == tail && u != [];
    if u[0] == s[i] {
      assert Less(tail, u[1..]);
      RearrangedTail(s[i..], u);
      FallingIsLast(tail, u[1..]);
    }
  }

  /** With the new value first, the rest rises and has no earlier rearrangement. */
  lemma NotBelowRising(after: seq<int>, u: seq<int>)
    requires after != [] && u != [] && u[0] == after[0] && Rising(after[1..]) && Rearranged(after, u)
    ensures !Less(u, after)
  {
    hide Rising, Rearranged;
    RearrangedTail(after, u);
    RisingIsFirst(after[1..], u[1..]);
  }

  /** No rearrangement of the part from the pivot on lies strictly between it and the new part. */
  lemma NothingBetween(s: seq<int>, i: nat, j: nat, r: seq<int>, u: seq<int>)
    requires IsPivot(s, i) && IsSwap(s, i, j)
    requires r == Reverse(s[i + 1..][j - i - 1 := s[i]])
    requires Rearranged(s[i..], u) && Less(s[i..], u)
    ensures !Less(u, [s[j]] + r)
  {
    hide Less, Falling, Rising, IsPivot, Reverse;
    SwappedTail(s, i, j, r);
    var after := [s[j]] + r;
    if Less(u, after) {
      FirstOfTail(s, i, j, after, u);
      NotPivotFirst(s, i, u);
      assert after[1..] == r;
      NotBelowRising(after, u);
    }
  }

  /** The same for whole arrangements: what lies between them has their common prefix. */
  lemma NothingBetweenWhole(s: seq<int>, i: nat, j: nat, r: seq<int>, u: seq<int>)
    requires IsPivot(s, i) && IsSwap(s, i, j)
    requires r == Reverse(s[i + 1..][j - i - 1 := s[i]])
    requires Rearranged(s, u) && Less(s, u)
    ensures !Less(u, s[..i] + ([s[j]] + r))
  {
    hide Less, Falling, Rising, Reverse, Rearranged;
    var prefix, after := s[..i], [s[j]] + r;
    assert s == prefix + s[i..];
    if Less(u, prefix + after) {
      Between(prefix, s[i..], u, after);
      assert u == prefix + u[i..];
      RearrangedSplit(prefix, s[i..], u[i..]);
      LessAfter(prefix, s[i..], u[i..]);
      LessAfter(prefix, u[i..], after);
      NothingBetween(s, i, j, r, u[i..]);
    }
  }

  lemma PivotGivesLater(s: seq<int>, i: nat, j: nat, r: seq<int>)
    requires IsPivot(s, i) && IsSwap(s, i, j)
    requires r == Reverse(s[i + 1..][j - i - 1 := s[i]])
    ensures var t := s[..i] + ([s[j]] + r); Rearranged(s, t) && Less(s, t)
  {
    hide Falling, Rising, Reverse;
    SwappedTail(s, i, j, r);
    var after := [s[j]] + r;
    assert s == s[..i] + s[i..];
    assert Less(s[i..], after);
    LessAfter(s[..i], s[i..], after);
  }

  lemma PivotGivesNext(s: seq<int>, i: nat, j: nat, r: seq<int>)
    requires IsPivot(s, i) && IsSwap(s, i, j)
    requires r == Reverse(s[i + 1..][j - i - 1 := s[i]])
    ensures HasLater(s) && IsNext(s, s[..i] + ([s[j]] + r))
  {
    hide Less, Falling, Rising, Reverse, Rearranged;
    PivotGivesLater(s, i, j, r);
    var t := s[..i] + ([s[j]] + r);
    forall u | Rearranged(s, u) && Less(s, u) ensures !Less(u, t) {
      NothingBetweenWhole(s, i, j, r, u);
    }
  }

  /** The arrangement s after the swap of i and j and the reversal of what follows i. */
  predicate Finished(s: seq<int>, i: nat, j: nat, t: seq<int>)
    requires i < j < |s|
  {
    |t| == |s| && t[..i] == s[..i] && t[i] == s[j] &&
    t[i + 1..] == Reverse(s[i + 1..][j - i - 1 := s[i]])
  }

  lemma FinishedIsNext(s: seq<int>, i: nat, j: nat, t: seq<int>)
    requires IsPivot(s, i) && IsSwap(s, i, j) && Finished(s, i, j, t)
    ensures HasLater(s) && IsNext(s, t)
  {
    hide Falling, Reverse, IsNext, HasLater, IsPivot;
    PivotGivesNext(s, i, j, t[i + 1..]);
    assert t == s[..i] + ([s[j]] + t[i + 1..]);
  }

  lemma {:induction false} FindPivot(s: seq<int>) returns (i: nat)
    requires !Falling(s)
    ensures IsPivot(s, i)
    decreases |s|
  {
    FallsOrPair(s);
    if Falling(s[1..]) {
      i := 0;
    } else {
      i := FindPivot(s[1..]);
      i := i + 1;
      assert s[1..][i..] == s[i + 1..];
    }
  }

  lemma FallsOrPair(s: seq<int>)
    ensures Falling(s) || |s| > 1
    ensures |s| > 1 && Falling(s[1..]) ==> Falling(s) || s[0] < s[1]
  {
    if |s| > 1 && Falling(s[1..]) && s[0] >= s[1] {
      FallingGrows(s, 0);
      assert s[0..] == s;
    }
  }

  lemma FindSwapPosition(s: seq<int>, i: nat) returns (j: nat)
    requires IsPivot(s, i)
    ensures IsSwap(s, i, j)
  {
    j := |s| - 1;
    while s[j] <= s[i]
      invariant i < j < |s| && forall k :: j < k < |s| ==> s[k] <= s[i]
      decreases j
    {
      j := j - 1;
    }
  }

  /** Exactly the falling arrangements have no later one. */
  lemma HasLaterIff(s: seq<int>)
    ensures HasLater(s) <==> !Falling(s)
  {
    if Falling(s) {
      forall u | Rearranged(s, u) ensures !Less(s, u) { FallingIsLast(s, u); }
    } else {
      var i := FindPivot(s);
      var j := FindSwapPosition(s, i);
      var tail := s[i + 1..][j - i - 1 := s[i]];
      PivotGivesNext(s, i, j, Reverse(tail));
    }
  }

  // ----- the algorithms

  method SwapElements(a: array<int>, i: nat, j: nat)
    requires i < a.Length && j < a.Length
    modifies a
    ensures a[..] == old(a[..])[i := old(a[j])][j := old(a[i])]
  {
    a[i], a[j] := a[j], a[i];
  }

  method ReverseRange(a: array<int>, begin: nat, end: nat)
    requires begin <= end <= a.Length
    modifies a
    ensures a[..begin] == old(a[..begin]) && a[end..] == old(a[end..])
    ensures a[begin..end] == Reverse(old(a[begin..end]))
  {
    hide Reverse;
    var i, j := begin, end;
    while i + 1 < j
      invariant begin <= i <= j <= end && i - begin == end - j
      invariant forall k :: 0 <= k < a.Length && !(begin <= k < i || j <= k < end) ==> a[k] == old(a[k])
      invariant forall k :: begin <= k < i || j <= k < end ==> a[k] == old(a[begin + end - 1 - k])
    {
      j := j - 1;
      a[i], a[j] := a[j], a[i];
      i := i + 1;
    }
    ghost var s, r := old(a[begin..end]), a[begin..end];
    forall k | 0 <= k < |s| ensures r[k] == s[|s| - 1 - k] {
      assert r[k] == a[begin + k] && s[|s| - 1 - k] == old(a[end - 1 - k]);
    }
    ReverseIs(s, r);
  }

  /** iter_swap and reverse, for a range [begin, end) with pivot i and swap position j. */
  method Finish(a: array<int>, begin: nat, end: nat, i: nat, j: nat)
    requires begin <= i < j < end <= a.Length
    modifies a
    ensures a[..begin] == old(a[..begin]) && a[end..] == old(a[end..])
    ensures Finished(old(a[begin..end]), i - begin, j - begin, a[begin..end])
  {
    hide Finished, Reverse;
    ghost var before := a[..];
    SwapElements(a, i, j);
    ghost var mid := a[..];
    SwappedRange(before, mid, begin, end, i, j);
    ReverseRange(a, i + 1, end);
    FinishedRange(before, mid, a[..], begin, end, i, j);
  }

  lemma SwappedRange(before: seq<int>, mid: seq<int>, begin: nat, end: nat, i: nat, j: nat)
    requires begin <= i < j < end <= |before| && mid == before[i := before[j]][j := before[i]]
    ensures mid[i + 1..end] == before[begin..end][i - begin + 1..][j - i - 1 := before[begin..end][i - begin]]
    ensures mid[..begin] == before[..begin] && mid[end..] == before[end..]
  {}

  lemma FinishedRange(before: seq<int>, mid: seq<int>, after: seq<int>, begin: nat, end: nat, i: nat, j: nat)
    requires begin <= i < j < end <= |before| == |after| && mid == before[i := before[j]][j := before[i]]
    requires after[..i + 1] == mid[..i + 1] && after[end..] == mid[end..]
    requires after[i + 1..end] == Reverse(mid[i + 1..end])
    ensures Finished(before[begin..end], i - begin, j - begin, after[begin..end])
    ensures after[..begin] == before[..begin] && after[end..] == before[end..]
  {
    hide Reverse;
    SwappedRange(before, mid, begin, end, i, j);
    var s, t := before[begin..end], after[begin..end];
    assert t[i - begin + 1..] == after[i + 1..end];
    forall k | 0 <= k <= i ensures after[k] == mid[k] { assert after[..i + 1][k] == mid[..i + 1][k]; }
    assert t[..i - begin] == s[..i - begin];
    assert after[..begin] == after[..i + 1][..begin] && mid[..begin] == mid[..i + 1][..begin];
  }

  /** Walking back over a falling tail: one more element joins it. */
  lemma FallingGrows(s: seq<int>, k: nat)
    requires k + 1 < |s| && Falling(s[k + 1..]) && s[k] >= s[k + 1]
    ensures Falling(s[k..])
  {
    assert s[k..][1..] == s[k + 1..];
    forall i, j | 0 <= i < j < |s[k..]| ensures s[k..][i] >= s[k..][j] {
      if i == 0 && j > 1 { assert s[k + 1..][0] >= s[k + 1..][j - 1]; }
      if i > 0 { assert s[k + 1..][i - 1] >= s[k + 1..][j - 1]; }
    }
  }

  /** exercises/permute_lexigraphical.cpp: the range [begin, end) and the flag. */
  method PermuteLexigraphical(a: array<int>, begin: nat, end: nat) returns (hasPermutation: bool)
    requires begin <= end <= a.Length
    modifies a
    ensures IsNext(old(a[begin..end]), a[begin..end])
    ensures hasPermutation <==> HasLater(old(a[begin..end]))
    ensures a[..begin] == old(a[..begin]) && a[end..] == old(a[end..])
  {
    hide Falling, IsNext, HasLater, Rising, Rearranged, IsPivot, IsSwap, Finished, Reverse;
    ghost var s := a[begin..end];
    hasPermutation := false;
    if end - begin > 1 {
      var next := FindPair(a, begin, end);
      var prev := next + 1;
      hasPermutation := a[next] < a[prev];
      if hasPermutation {
        var swap := FindSwap(a, next, end);
        RangeSwapFound(a, begin, end, next, swap);
        Finish(a, begin, end, next, swap);
        FinishedIsNext(s, next - begin, swap - begin, a[begin..end]);
      } else {
        RangeFalls(a, begin, end);
        ReverseRange(a, begin, end);
        WholeFalls(s, a[begin..end]);
      }
    } else {
      RangeFalls(a, begin, end);
      WholeFalls(s, s);
    }
  }

  lemma RangeSwapFound(a: array<int>, begin: nat, end: nat, i: nat, j: nat)
    requires begin <= i < j < end <= a.Length
    requires Falling(a[i + 1..end]) && a[i] < a[i + 1]
    requires a[i] < a[j] && forall k :: j < k < end ==> a[k] <= a[i]
    ensures IsPivot(a[begin..end], i - begin) && IsSwap(a[begin..end], i - begin, j - begin)
  {
    assert a[begin..end][i - begin + 1..] == a[i + 1..end];
  }

  lemma RangeFalls(a: array<int>, begin: nat, end: nat)
    requires begin <= end <= a.Length
    requires end - begin > 1 ==> Falling(a[begin + 1..end]) && a[begin] >= a[begin + 1]
    ensures Falling(a[begin..end])
  {
    var s := a[begin..end];
    assert s[0..] == s;
    if |s| > 1 {
      assert s[1..] == a[begin + 1..end];
      FallingGrows(s, 0);
    }
  }

  /** The search for the first in-order pair from the back: it stops at `begin` without one. */
  method FindPair(a: array<int>, begin: nat, end: nat) returns (next: nat)
    requires begin + 1 < end <= a.Length
    ensures begin <= next < end - 1 && Falling(a[next + 1..end])
    ensures next == begin || a[next] < a[next + 1]
  {
    hide Falling;
    var prev := end - 1;
    next := end - 2;
    TailFalls(a[prev..end], 0);
    while next != begin && !(a[next] < a[prev])
      invariant begin <= next < end - 1 && prev == next + 1
      invariant Falling(a[prev..end])
    {
      ghost var s := a[next..end];
      assert s[1..] == a[prev..end];
      FallingGrows(s, 0);
      assert s[0..] == s;
      prev, next := prev - 1, next - 1;
    }
  }

  /** The first element from the back larger than the pivot. */
  method FindSwap(a: array<int>, next: nat, end: nat) returns (swap: nat)
    requires next + 1 < end <= a.Length && a[next] < a[next + 1]
    ensures next < swap < end && a[next] < a[swap]
    ensures forall k :: swap < k < end ==> a[k] <= a[next]
  {
    swap := end - 1;
    while !(a[next] < a[swap])
      invariant next < swap < end
      invariant forall k :: swap < k < end ==> a[k] <= a[next]
      decreases swap
    {
      swap := swap - 1;
    }
  }

  lemma TailFalls(s: seq<int>, k: nat)
    requires |s| <= k + 1 && k <= |s|
    ensures Falling(s[k..])
  {}

  lemma SwapFound(s: seq<int>, i: nat, j: nat)
    requires i + 1 < |s| && Falling(s[i + 1..]) && s[i] < s[i + 1]
    requires i < j < |s| && s[i] < s[j] && forall k {:trigger s[k]} :: j < k < |s| ==> s[k] <= s[i]
    ensures IsPivot(s, i) && IsSwap(s, i, j)
  {}

  /** exercises/leetcode/31-next-permutation.cpp, the form with forward iterators. */
  method NextPermutation1(nums: array<int>)
    modifies nums
    ensures IsNext(old(nums[..]), nums[..])
  {
    hide Falling, IsNext, HasLater, Rising, Rearranged, IsPivot, IsSwap, Finished, Reverse;
    ghost var s := nums[..];
    var n := nums.Length;
    if n > 1 {
      var swapped, last, pivot := false, n - 1, n - 1;
      TailFalls(s, n - 1);
      while pivot != 0 && !swapped
        invariant 0 <= pivot < n
        invariant !swapped ==> nums[..] == s && Falling(s[pivot..])
        invariant swapped ==> IsNext(s, nums[..])
        decreases pivot
      {
        var prev := pivot;
        pivot := pivot - 1;
        if nums[pivot] < nums[prev] {
          var swap := FindSwap(nums, pivot, last + 1);
          SwapFound(s, pivot, swap);
          assert nums[0..n] == nums[..];
          Finish(nums, 0, n, pivot, swap);
          assert nums[0..n] == nums[..];
          FinishedIsNext(s, pivot, swap, nums[..]);
          swapped := true;
        } else {
          FallingGrows(s, pivot);
        }
      }
      if !swapped {
        assert s[0..] == s == nums[0..n];
        ReverseRange(nums, 0, n);
        assert nums[0..n] == nums[..];
        WholeFalls(s, nums[..]);
      }
    } else {
      TailFalls(s, 0);
      assert s[0..] == s;
      WholeFalls(s, s);
    }
  }

  /** The form with reverse iterators: adjacent_find and find_if from the back. A reverse iterator
      is the position it refers to, rend() is -1. */
  method NextPermutation(nums: array<int>)
    modifies nums
    ensures IsNext(old(nums[..]), nums[..])
  {
    hide Falling, IsNext, HasLater, Rising, Rearranged, IsPivot, IsSwap, Finished, Reverse;
    ghost var s := nums[..];
    var n := nums.Length;
    if n > 1 {
      var swapped := false;
      var prev := AdjacentFind(nums);
      if prev != -1 {
        var pivot := prev - 1;
        var swap := FindLarger(nums, nums[pivot]);
        if swap != -1 {
          assert swap >= prev;
          SwapFound(s, pivot, swap);
          assert nums[0..n] == nums[..];
          Finish(nums, 0, n, pivot, swap);
          assert nums[0..n] == nums[..];
          FinishedIsNext(s, pivot, swap, nums[..]);
          swapped := true;
        }
      }
      if !swapped {
        assert s[0..] == s == nums[0..n];
        ReverseRange(nums, 0, n);
        assert nums[0..n] == nums[..];
        WholeFalls(s, nums[..]);
      }
    } else {
      TailFalls(s, 0);
      assert s[0..] == s;
      WholeFalls(s, s);
    }
  }

  /** std::adjacent_find over reverse iterators with greater: from the back, the first element larger
      than the one before it. */
  method AdjacentFind(nums: array<int>) returns (prev: int)
    requires nums.Length > 1
    ensures prev == -1 ==> Falling(nums[..])
    ensures prev != -1 ==> 0 < prev < nums.Length && nums[prev] > nums[prev - 1] && Falling(nums[prev..])
  {
    hide Falling;
    prev := nums.Length - 1;
    ghost var s := nums[..];
    TailFalls(s, |s| - 1);
    while prev > 0 && !(nums[prev] > nums[prev - 1])
      invariant 0 <= prev < nums.Length && Falling(s[prev..])
    {
      FallingGrows(s, prev - 1);
      prev := prev - 1;
    }
    assert s[prev..] == nums[prev..] && s[0..] == s;
    if prev == 0 { prev := -1; }
  }

  /** std::find_if over reverse iterators: from the back, the first element larger than p. */
  method FindLarger(nums: array<int>, p: int) returns (swap: int)
    ensures -1 <= swap < nums.Length && (swap != -1 ==> nums[swap] > p)
    ensures forall k :: swap < k < nums.Length ==> nums[k] <= p
  {
    swap := nums.Length - 1;
    while swap >= 0 && !(nums[swap] > p)
      invariant -1 <= swap < nums.Length
      invariant forall k :: swap < k < nums.Length ==> nums[k] <= p
    {
      swap := swap - 1;
    }
  }
}
