/** All k-element subsets of 1..n, listed by running a selection mask through all its arrangements
    (exercises/leetcode/77-combinations.cpp). */
module Combinations {
  import opened Basics
  import opened Permutations

  // ----- what is to be listed

  predicate Increasing(c: seq<int>) { forall i, j :: 0 <= i < j < |c| ==> c[i] < c[j] }

  /** A k-element subset of 1..n, in increasing order. */
  predicate IsCombination(c: seq<int>, n: nat, k: nat) {
    |c| == k && Increasing(c) && forall x :: x in c ==> 1 <= x <= n
  }

  /** Pascal's triangle. */
  function Binomial(n: nat, k: nat): nat {
    if k == 0 then 1 else if n == 0 then 0 else Binomial(n - 1, k) + Binomial(n - 1, k - 1)
  }

  /** The order of the rows: of the values in exactly one of c and d, the least is in d. */
  ghost predicate Precedes(c: seq<int>, d: seq<int>) { exists x :: PrecedesAt(c, d, x) }

  ghost predicate PrecedesAt(c: seq<int>, d: seq<int>, x: int) {
    x in d && x !in c && forall y :: y < x ==> (y in c <==> y in d)
  }

  // ----- selection masks

  predicate IsMask(m: seq<int>) { forall x :: x in m ==> x == 0 || x == 1 }

  /** The values 1..|m| whose mask entry is set. */
  function Selected(m: seq<int>): seq<int> {
    if m == [] then []
    else Selected(m[..|m| - 1]) + if m[|m| - 1] != 0 then [|m|] else []
  }

  lemma {:induction false} SelectedIsCombination(m: seq<int>)
    requires IsMask(m)
    ensures IsCombination(Selected(m), |m|, multiset(m)[1])
  {
    if m != [] {
      var front := m[..|m| - 1];
      assert m == front + [m[|m| - 1]];
      assert forall x :: x in front ==> x in m;
      assert m[|m| - 1] in m;
      SelectedIsCombination(front);
      assert forall i :: 0 <= i < |Selected(front)| ==> Selected(front)[i] in Selected(front);
    }
  }

  lemma {:induction false} InSelected(m: seq<int>, x: int)
    ensures x in Selected(m) <==> 1 <= x <= |m| && m[x - 1] != 0
  {
    if m != [] {
      InSelected(m[..|m| - 1], x);
    }
  }

  /** Two masks of one length differ first where the greater has a one. */
  lemma {:induction false} FirstDifference(m: seq<int>, m': seq<int>) returns (p: nat)
    requires IsMask(m) && IsMask(m') && |m| == |m'| && Less(m, m')
    ensures p < |m| && m[..p] == m'[..p] && m[p] == 0 && m'[p] == 1
    decreases |m|
  {
    assert m[0] in m && m'[0] in m';
    if m[0] < m'[0] {
      p := 0;
    } else {
      MaskTail(m);
      MaskTail(m');
      p := FirstDifference(m[1..], m'[1..]);
      p := p + 1;
      SamePrefix(m, m', p);
    }
  }

  lemma SamePrefix(m: seq<int>, m': seq<int>, p: nat)
    requires 0 < p <= |m| == |m'| && m[0] == m'[0] && m[1..][..p - 1] == m'[1..][..p - 1]
    ensures m[..p] == m'[..p]
  {
    assert m[..p] == [m[0]] + m[1..][..p - 1] && m'[..p] == [m'[0]] + m'[1..][..p - 1];
  }

  /** Masks in lexicographic order select subsets in the order of Precedes. */
  lemma SelectedPrecedes(m: seq<int>, m': seq<int>)
    requires IsMask(m) && IsMask(m') && |m| == |m'| && Less(m, m')
    ensures Precedes(Selected(m), Selected(m'))
  {
    hide IsMask, Selected, Less;
    var p := FirstDifference(m, m');
    var c, d, x := Selected(m), Selected(m'), p + 1;
    InSelected(m, x);
    InSelected(m', x);
    forall y: int | y < x ensures y in c <==> y in d {
      InSelected(m, y);
      InSelected(m', y);
      if y >= 1 { assert m[..p][y - 1] == m'[..p][y - 1]; }
    }
    assert PrecedesAt(c, d, x);
  }

  lemma MaskFront(m: seq<int>)
    requires m != [] && IsMask(m)
    ensures IsMask(m[..|m| - 1])
  {
    var front := m[..|m| - 1];
    forall x | x in front ensures x in m {}
  }

  lemma {:induction false} SelectedInjective(m: seq<int>, m': seq<int>)
    requires IsMask(m) && IsMask(m') && |m| == |m'| && Selected(m) == Selected(m')
    ensures m == m'
  {
    hide Selected, IsMask, IsCombination;
    if m != [] {
      var n := |m|;
      MaskFront(m);
      MaskFront(m');
      SelectedFront(m);
      SelectedFront(m');
      SelectedInjective(m[..n - 1], m'[..n - 1]);
      SameSnoc(m, m');
    }
  }

  lemma SameSnoc(m: seq<int>, m': seq<int>)
    requires |m| == |m'| > 0 && m[..|m| - 1] == m'[..|m| - 1] && m[|m| - 1] == m'[|m| - 1]
    ensures m == m'
  {
    assert m == m[..|m| - 1] + [m[|m| - 1]] && m' == m'[..|m| - 1] + [m'[|m| - 1]];
  }

  /** The last mask entry and the selection of the others can be read off the selection. */
  lemma SelectedFront(m: seq<int>)
    requires m != [] && IsMask(m)
    ensures IsMask(m[..|m| - 1])
    ensures var s, n := Selected(m), |m|;
            m[n - 1] == (if s != [] && s[|s| - 1] == n then 1 else 0) &&
            Selected(m[..n - 1]) == if s != [] && s[|s| - 1] == n then s[..|s| - 1] else s
  {
    var n := |m|;
    var front := Selected(m[..n - 1]);
    MaskFront(m);
    SelectedIsCombination(m[..n - 1]);
    assert m[n - 1] in m;
    assert front != [] ==> front[|front| - 1] in front;
    assert m[n - 1] != 0 ==> Selected(m)[..|front|] == front;
  }

  lemma MaskSnoc(m: seq<int>, x: int)
    requires IsMask(m) && (x == 0 || x == 1)
    ensures IsMask(m + [x]) && multiset(m + [x])[1] == multiset(m)[1] + x
    ensures Selected(m + [x]) == if x == 1 then Selected(m) + [|m| + 1] else Selected(m)
  {
    hide Selected, IsMask;
    SelectedSnoc(m, x);
    CountSnoc(m, x);
    IsMaskSnoc(m, x);
  }

  lemma IsMaskSnoc(m: seq<int>, x: int)
    requires IsMask(m) && (x == 0 || x == 1)
    ensures IsMask(m + [x])
  {}

  lemma CountSnoc(m: seq<int>, x: int)
    ensures multiset(m + [x])[1] == multiset(m)[1] + if x == 1 then 1 else 0
  {}

  lemma SelectedSnoc(m: seq<int>, x: int)
    ensures Selected(m + [x]) == if x != 0 then Selected(m) + [|m| + 1] else Selected(m)
  {
    assert (m + [x])[..|m|] == m && (m + [x])[|m|] == x;
    assert x == 0 ==> Selected(m) + [] == Selected(m);
  }

  lemma FirstIn(c: seq<int>)
    ensures c == [] || c[0] in c
  {}

  lemma CombinationOfNone(c: seq<int>, k: nat)
    requires IsCombination(c, 0, k)
    ensures c == [] && k == 0
  {
    FirstIn(c);
  }

  lemma CombinationWith(c: seq<int>, n: nat, k: nat)
    requires n > 0 && IsCombination(c, n, k) && c != [] && c[|c| - 1] == n
    ensures k > 0 && IsCombination(c[..|c| - 1], n - 1, k - 1)
  {
    var front := c[..|c| - 1];
    forall x | x in front ensures 1 <= x <= n - 1 {
      var i :| 0 <= i < |front| && front[i] == x;
      assert c[i] < c[|c| - 1] && x in c;
    }
  }

  lemma CombinationWithout(c: seq<int>, n: nat, k: nat)
    requires n > 0 && IsCombination(c, n, k) && (c == [] || c[|c| - 1] != n)
    ensures IsCombination(c, n - 1, k)
  {
    forall x | x in c ensures 1 <= x <= n - 1 {
      var i :| 0 <= i < |c| && c[i] == x;
      assert c[i] <= c[|c| - 1] && c[|c| - 1] in c;
    }
  }

  lemma {:induction false} MaskFor(c: seq<int>, n: nat, k: nat) returns (m: seq<int>)
    requires IsCombination(c, n, k)
    ensures |m| == n && IsMask(m) && multiset(m)[1] == k && Selected(m) == c
  {
    if n == 0 {
      CombinationOfNone(c, k);
      m := [];
    } else if c != [] && c[|c| - 1] == n {
      CombinationWith(c, n, k);
      m := MaskFor(c[..|c| - 1], n - 1, k - 1);
      MaskSnoc(m, 1);
      m := m + [1];
    } else {
      CombinationWithout(c, n, k);
      m := MaskFor(c, n - 1, k);
      MaskSnoc(m, 0);
      m := m + [0];
    }
  }

  /** The masks of length n with k entries set. */
  ghost function Masks(n: nat, k: nat): set<seq<int>> {
    if n == 0 then (if k == 0 then {[]} else {})
    else Prefixed(0, Masks(n - 1, k)) + if k == 0 then {} else Prefixed(1, Masks(n - 1, k - 1))
  }

  ghost function Prefixed(x: int, masks: set<seq<int>>): set<seq<int>> { set m | m in masks :: [x] + m }

  lemma {:induction false} PrefixedSize(x: int, masks: set<seq<int>>)
    ensures |Prefixed(x, masks)| == |masks|
    decreases |masks|
  {
    if m :| m in masks {
      PrefixedSize(x, masks - {m});
      assert Prefixed(x, masks) == Prefixed(x, masks - {m}) + {[x] + m};
      assert ([x] + m)[1..] == m;
      InPrefixed(x, [x] + m, masks - {m});
    }
  }

  lemma {:induction false} MasksSize(n: nat, k: nat)
    ensures |Masks(n, k)| == Binomial(n, k)
  {
    hide Masks, Binomial;
    BinomialUnroll(n, k);
    if n == 0 {
      NoMasks(k);
    } else {
      MasksStep(n, k);
      MasksSize(n - 1, k);
      if k > 0 { MasksSize(n - 1, k - 1); } else { BinomialUnroll(n - 1, 0); }
    }
  }

  lemma BinomialUnroll(n: nat, k: nat)
    ensures k == 0 ==> Binomial(n, k) == 1
    ensures n == 0 && k > 0 ==> Binomial(n, k) == 0
    ensures n > 0 && k > 0 ==> Binomial(n, k) == Binomial(n - 1, k) + Binomial(n - 1, k - 1)
  {}

  lemma NoMasks(k: nat)
    ensures |Masks(0, k)| == if k == 0 then 1 else 0
  {}

  lemma MasksStep(n: nat, k: nat)
    requires n > 0
    ensures |Masks(n, k)| == |Masks(n - 1, k)| + if k == 0 then 0 else |Masks(n - 1, k - 1)|
  {
    hide Prefixed;
    var zeros := Prefixed(0, Masks(n - 1, k));
    PrefixedSize(0, Masks(n - 1, k));
    if k > 0 {
      var ones := Prefixed(1, Masks(n - 1, k - 1));
      PrefixedSize(1, Masks(n - 1, k - 1));
      PrefixedDisjoint(Masks(n - 1, k), Masks(n - 1, k - 1));
      DisjointSize(zeros, ones);
    } else {
      assert zeros + {} == zeros;
    }
  }

  lemma DisjointSize<T>(a: set<T>, b: set<T>)
    requires a !! b
    ensures |a + b| == |a| + |b|
  {}

  lemma PrefixedDisjoint(a: set<seq<int>>, b: set<seq<int>>)
    ensures Prefixed(0, a) !! Prefixed(1, b)
  {
    forall m | m in Prefixed(0, a) ensures m !in Prefixed(1, b) {
      InPrefixed(0, m, a);
      InPrefixed(1, m, b);
    }
  }

  lemma {:induction false} InMasks(m: seq<int>, k: nat)
    ensures m in Masks(|m|, k) <==> IsMask(m) && multiset(m)[1] == k
    decreases |m|
  {
    hide Prefixed;
    if m != [] {
      var tail := m[1..];
      assert m == [m[0]] + tail;
      InMasks(tail, k);
      InPrefixed(0, m, Masks(|tail|, k));
      if k > 0 {
        InMasks(tail, k - 1);
        InPrefixed(1, m, Masks(|tail|, k - 1));
      }
      MaskTail(m);
    }
  }

  lemma MaskTail(m: seq<int>)
    requires m != []
    ensures IsMask(m) <==> IsMask(m[1..]) && (m[0] == 0 || m[0] == 1)
  {
    assert m[0] in m && forall x :: x in m[1..] ==> x in m;
    assert forall x :: x in m ==> x == m[0] || x in m[1..];
  }

  lemma InPrefixed(x: int, m: seq<int>, masks: set<seq<int>>)
    requires m != []
    ensures m in Prefixed(x, masks) <==> m[0] == x && m[1..] in masks
  {
    assert m == [m[0]] + m[1..];
    if m in Prefixed(x, masks) {
      var t :| t in masks && m == [x] + t;
      assert m[1..] == t;
    }
  }

  lemma {:induction false} ZerosAndOnes(m: seq<int>)
    requires IsMask(m)
    ensures multiset(m)[0] + multiset(m)[1] == |m|
  {
    if m != [] {
      assert m == [m[0]] + m[1..];
      MaskTail(m);
      ZerosAndOnes(m[1..]);
    }
  }

  /** The rearrangements of a mask are the masks of the same length with as many entries set. */
  lemma RearrangedMasks(s: seq<int>, m: seq<int>)
    requires IsMask(s)
    ensures Rearranged(s, m) <==> |m| == |s| && m in Masks(|s|, multiset(s)[1])
  {
    InMasks(m, multiset(s)[1]);
    assert |multiset(m)| == |m| && |multiset(s)| == |s|;
    if Rearranged(s, m) {
      assert forall x :: x in m ==> x in multiset(m);
      assert forall x :: x in multiset(s) ==> x in s;
    } else if |m| == |s| && IsMask(m) && multiset(m)[1] == multiset(s)[1] {
      ZerosAndOnes(s);
      ZerosAndOnes(m);
      forall x ensures multiset(s)[x] == multiset(m)[x] {
        assert x in s <==> x in multiset(s);
        assert x in m <==> x in multiset(m);
      }
    }
  }

  // ----- the enumeration

  /** The masks met so far, in lexicographic order, `mask` being the last. */
  ghost predicate Visited(masks: seq<seq<int>>, start: seq<int>, mask: seq<int>) {
    masks != [] && masks[|masks| - 1] == mask &&
    (forall i :: 0 <= i < |masks| ==> Rearranged(start, masks[i])) &&
    (forall i, j :: 0 <= i < j < |masks| ==> Less(masks[i], masks[j])) &&
    forall u :: Rearranged(start, u) && !Less(mask, u) ==> u in masks
  }

  lemma VisitFirst(start: seq<int>)
    requires Rising(start)
    ensures Visited([start], start, start)
  {
    forall u | Rearranged(start, u) && !Less(start, u) ensures u in [start] {
      RisingIsFirst(start, u);
      LessTotal(start, u);
    }
  }

  lemma VisitNext(masks: seq<seq<int>>, start: seq<int>, mask: seq<int>, next: seq<int>)
    requires Visited(masks, start, mask) && HasLater(mask) && IsNext(mask, next)
    ensures Visited(masks + [next], start, next)
  {
    hide HasLater, Less;
    var all := masks + [next];
    forall i, j | 0 <= i < j < |all| ensures Less(all[i], all[j]) {
      if j == |masks| && i < |masks| - 1 { LessTransitive(masks[i], mask, next); }
    }
    forall u | Rearranged(start, u) && !Less(next, u) ensures u in all {
      if Less(mask, u) { LessTotal(u, next); }
      assert u in masks || u == all[|masks|];
    }
  }

  /** Each mask is met once, so there are at most as many as there are masks. */
  lemma VisitedCount(masks: seq<seq<int>>, start: seq<int>, mask: seq<int>)
    requires IsMask(start) && Visited(masks, start, mask)
    ensures Distinct(masks)
    ensures |masks| <= Binomial(|start|, multiset(start)[1])
    ensures !HasLater(mask) ==> |masks| == Binomial(|start|, multiset(start)[1])
    ensures !HasLater(mask) ==> forall m :: m in Masks(|start|, multiset(start)[1]) ==> m in masks
  {
    hide Less, Masks, IsMask;
    var n, k := |start|, multiset(start)[1];
    forall i, j | 0 <= i < j < |masks| ensures masks[i] != masks[j] { LessAsymmetric(masks[i], masks[j]); }
    forall m | m in masks ensures m in Masks(n, k) { RearrangedMasks(start, m); }
    MasksSize(n, k);
    if !HasLater(mask) {
      forall m | m in Masks(n, k) ensures m in masks {
        InMasksLength(m, n, k);
        RearrangedMasks(start, m);
        assert Rearranged(mask, m) by { assert Rearranged(start, masks[|masks| - 1]); }
      }
    }
    DistinctSize(masks, Masks(n, k));
  }

  lemma {:induction false} InMasksLength(m: seq<int>, n: nat, k: nat)
    requires m in Masks(n, k)
    ensures |m| == n
    decreases n
  {
    if n > 0 {
      if m in Prefixed(0, Masks(n - 1, k)) {
        var t :| t in Masks(n - 1, k) && m == [0] + t;
        InMasksLength(t, n - 1, k);
      } else {
        var t :| t in Masks(n - 1, k - 1) && m == [1] + t;
        InMasksLength(t, n - 1, k - 1);
      }
    }
  }

  /** The subset that one mask selects. */
  method Select(n: nat, mask: array<int>) returns (row: seq<int>)
    requires mask.Length == n
    ensures row == Selected(mask[..])
  {
    row := [];
    for i := 1 to n + 1
      invariant row == Selected(mask[..i - 1])
    {
      assert mask[..i][..i - 1] == mask[..i - 1];
      if mask[i - 1] != 0 { row := row + [i]; }
    }
    assert mask[..n] == mask[..];
  }

  method InitialMask(n: nat, k: nat) returns (mask: array<int>)
    requires k <= n
    ensures fresh(mask) && mask.Length == n
    ensures IsMask(mask[..]) && Rising(mask[..]) && multiset(mask[..])[1] == k
  {
    mask := new int[n];
    for i := 0 to n - k
      invariant forall j :: 0 <= j < i ==> mask[j] == 0
    {
      mask[i] := 0;
    }
    for i := n - k to n
      invariant forall j :: 0 <= j < n - k ==> mask[j] == 0
      invariant forall j :: n - k <= j < i ==> mask[j] == 1
    {
      mask[i] := 1;
    }
    OnesAtEnd(mask[..], k);
  }

  lemma {:induction false} OnesAtEnd(m: seq<int>, k: nat)
    requires k <= |m| && forall j :: 0 <= j < |m| ==> m[j] == if j < |m| - k then 0 else 1
    ensures multiset(m)[1] == k
    decreases |m|
  {
    if m != [] {
      assert m == [m[0]] + m[1..];
      OnesAtEnd(m[1..], if k == |m| then k - 1 else k);
    }
  }

  method Combine(n: nat, k: nat) returns (result: seq<seq<int>>)
    requires k <= n
    ensures forall c :: c in result <==> IsCombination(c, n, k)
    ensures Distinct(result) && |result| == Binomial(n, k)
    ensures forall i, j :: 0 <= i < j < |result| ==> Precedes(result[i], result[j])
  {
    hide IsMask, Rising, Selected, Masks, HasLater, IsNext, Visited, Distinct, Less, Rearranged, Precedes;
    var mask := InitialMask(n, k);
    ghost var start, masks := mask[..], [mask[..]];
    VisitFirst(start);
    var row := Select(n, mask);
    result := [row];
    var more := PermuteLexigraphical(mask, 0, n);
    assert mask[0..n] == mask[..] && start[0..n] == start;
    VisitedCount(masks, start, start);
    ghost var last := start;
    while more
      invariant fresh(mask) && mask.Length == n
      invariant Visited(masks, start, last) && (more <==> HasLater(last))
      invariant |masks| <= Binomial(n, k) && IsNext(last, mask[..])
      invariant |result| == |masks| && forall i :: 0 <= i < |masks| ==> result[i] == Selected(masks[i])
      decreases Binomial(n, k) - |masks|
    {
      VisitNext(masks, start, last, mask[..]);
      last := mask[..];
      masks := masks + [last];
      VisitedCount(masks, start, last);
      row := Select(n, mask);
      result := result + [row];
      assert mask[0..n] == last;
      more := PermuteLexigraphical(mask, 0, n);
      assert mask[0..n] == mask[..];
    }
    VisitedCount(masks, start, last);
    AllListed(masks, result, start, last, n, k);
    RowsInOrder(masks, result, start, last);
  }

  /** The rows come in the order of their masks. */
  lemma RowsInOrder(masks: seq<seq<int>>, result: seq<seq<int>>, start: seq<int>, last: seq<int>)
    requires IsMask(start) && Visited(masks, start, last)
    requires |result| == |masks| && forall i :: 0 <= i < |masks| ==> result[i] == Selected(masks[i])
    ensures forall i, j :: 0 <= i < j < |result| ==> Precedes(result[i], result[j])
  {
    hide IsMask, Selected, Masks, Less, Rearranged, Precedes;
    forall i, j | 0 <= i < j < |result| ensures Precedes(result[i], result[j]) {
      RearrangedMasks(start, masks[i]);
      RearrangedMasks(start, masks[j]);
      InMasks(masks[i], multiset(start)[1]);
      InMasks(masks[j], multiset(start)[1]);
      SelectedPrecedes(masks[i], masks[j]);
    }
  }

  /** From masks to the subsets they select. */
  lemma AllListed(masks: seq<seq<int>>, result: seq<seq<int>>, start: seq<int>, last: seq<int>, n: nat, k: nat)
    requires IsMask(start) && |start| == n && multiset(start)[1] == k
    requires Visited(masks, start, last) && Distinct(masks) && forall m :: m in Masks(n, k) ==> m in masks
    requires |result| == |masks| && forall i :: 0 <= i < |masks| ==> result[i] == Selected(masks[i])
    ensures forall c :: c in result <==> IsCombination(c, n, k)
    ensures Distinct(result)
  {
    hide IsMask, Rising, Selected, Masks, HasLater, IsNext, Less, Rearranged, IsCombination;
    forall i | 0 <= i < |masks| ensures |masks[i]| == n && IsMask(masks[i]) && multiset(masks[i])[1] == k {
      RearrangedMasks(start, masks[i]);
      InMasks(masks[i], k);
    }
    forall c | c in result ensures IsCombination(c, n, k) {
      var i :| 0 <= i < |result| && result[i] == c;
      SelectedIsCombination(masks[i]);
    }
    forall c | IsCombination(c, n, k) ensures c in result {
      var m := MaskFor(c, n, k);
      InMasks(m, k);
      var i :| 0 <= i < |masks| && masks[i] == m;
      assert result[i] == c;
    }
    forall i, j | 0 <= i < j < |result| ensures result[i] != result[j] {
      if result[i] == result[j] { SelectedInjective(masks[i], masks[j]); }
    }
  }
}
