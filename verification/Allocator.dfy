/** The worst-fit block allocator of exercises/memory.cpp (LargeBlockAllocator): free blocks in a heap
    ordered by size, split on allocation and merged with their neighbours by defragment. */
module Allocator {

  /** record_type: a block of memory. */
  datatype Block = Block(memory: int, size: nat) {
    function End(): int { memory + size }
    predicate Has(x: int) { memory <= x < End() }
  }

  // ----- the bytes of a list of blocks

  /** How many of the blocks contain address x. */
  function Cover(blocks: seq<Block>, x: int): nat {
    if blocks == [] then 0
    else Cover(blocks[..|blocks| - 1], x) + if blocks[|blocks| - 1].Has(x) then 1 else 0
  }

  function Bytes(blocks: seq<Block>): nat {
    if blocks == [] then 0 else Bytes(blocks[..|blocks| - 1]) + blocks[|blocks| - 1].size
  }

  lemma {:induction false} Concat(s: seq<Block>, t: seq<Block>, x: int)
    ensures Cover(s + t, x) == Cover(s, x) + Cover(t, x)
    ensures Bytes(s + t) == Bytes(s) + Bytes(t)
    decreases |t|
  {
    if t == [] {
      assert s + t == s;
    } else {
      assert (s + t)[..|s + t| - 1] == s + t[..|t| - 1];
      Concat(s, t[..|t| - 1], x);
    }
  }

  lemma One(b: Block, x: int)
    ensures Cover([b], x) == (if b.Has(x) then 1 else 0) && Bytes([b]) == b.size
  {
    assert [b][..0] == [];
  }

  /** One block taken out of a list. */
  lemma Without(s: seq<Block>, i: nat, x: int)
    requires i < |s|
    ensures Cover(s, x) == Cover(s[..i] + s[i + 1..], x) + if s[i].Has(x) then 1 else 0
    ensures Bytes(s) == Bytes(s[..i] + s[i + 1..]) + s[i].size
  {
    assert s == s[..i] + [s[i]] + s[i + 1..];
    Concat(s[..i] + [s[i]], s[i + 1..], x);
    Concat(s[..i], [s[i]], x);
    Concat(s[..i], s[i + 1..], x);
    assert [s[i]][..0] == [];
  }

  lemma Removed(s: seq<Block>, i: nat)
    requires i < |s|
    ensures multiset(s[..i] + s[i + 1..]) == multiset(s) - multiset{s[i]}
  {
    assert s == s[..i] + [s[i]] + s[i + 1..];
  }

  /** Neither depends on the order of the blocks. */
  lemma {:induction false} Reordered(s: seq<Block>, t: seq<Block>, x: int)
    requires multiset(s) == multiset(t)
    ensures Cover(s, x) == Cover(t, x) && Bytes(s) == Bytes(t)
    decreases |s|
  {
    hide Cover, Bytes;
    assert |multiset(s)| == |s| && |multiset(t)| == |t|;
    if s == [] {
      assert t == [];
    } else {
      var n := |s| - 1;
      assert s[n] in multiset(s);
      var i :| 0 <= i < |t| && t[i] == s[n];
      Removed(s, n);
      Removed(t, i);
      Reordered(s[..n] + s[n + 1..], t[..i] + t[i + 1..], x);
      Without(s, n, x);
      Without(t, i, x);
    }
  }

  // ----- the std algorithms, by contract

  /** The order make_heap, push_heap and pop_heap keep: no block is larger than its parent. */
  predicate IsHeap(s: seq<Block>) {
    forall i, parent :: 0 < i < |s| && parent == (i - 1) / 2 ==> s[i].size <= s[parent].size
  }

  lemma {:induction false} HeapTop(s: seq<Block>, i: nat)
    requires IsHeap(s) && i < |s|
    ensures s[i].size <= s[0].size
  {
    if i > 0 { HeapTop(s, (i - 1) / 2); }
  }

  datatype Order = ByAddress | LargestFirst

  predicate Before(order: Order, a: Block, b: Block) {
    if order.ByAddress? then a.memory <= b.memory else a.size >= b.size
  }

  predicate Sorted(order: Order, s: seq<Block>) {
    forall i, j :: 0 <= i < j < |s| ==> Before(order, s[i], s[j])
  }

  /** sort: the rearrangement in the given order. */
  method Sort(s: seq<Block>, order: Order) returns (t: seq<Block>)
    ensures multiset(t) == multiset(s) && Sorted(order, t)
  {
    hide Sorted, Before;
    t := [];
    SortedEmpty(order);
    for n := 0 to |s|
      invariant multiset(t) == multiset(s[..n]) && Sorted(order, t)
    {
      var i := Slot(t, order, s[n]);
      InsertSorted(order, t, i, s[n]);
      InsertAdds(t, i, s[n]);
      PrefixAdds(s, n);
      t := t[..i] + [s[n]] + t[i..];
    }
    assert s[..|s|] == s;
  }

  lemma InsertAdds(t: seq<Block>, i: nat, b: Block)
    requires i <= |t|
    ensures multiset(t[..i] + [b] + t[i..]) == multiset(t) + multiset{b}
  {
    assert t == t[..i] + t[i..];
  }

  lemma PrefixAdds(s: seq<Block>, n: nat)
    requires n < |s|
    ensures multiset(s[..n + 1]) == multiset(s[..n]) + multiset{s[n]}
  {
    assert s[..n + 1] == s[..n] + [s[n]];
  }

  method Slot(t: seq<Block>, order: Order, b: Block) returns (i: nat)
    ensures i <= |t| && forall k :: 0 <= k < i ==> Before(order, t[k], b)
    ensures i < |t| ==> Before(order, b, t[i])
  {
    i := 0;
    while i < |t| && Before(order, t[i], b)
      invariant 0 <= i <= |t|
      invariant forall k :: 0 <= k < i ==> Before(order, t[k], b)
    {
      i := i + 1;
    }
  }

  lemma SortedEmpty(order: Order)
    ensures Sorted(order, [])
  {}

  lemma InsertSorted(order: Order, t: seq<Block>, i: nat, b: Block)
    requires Sorted(order, t) && i <= |t| && forall k :: 0 <= k < i ==> Before(order, t[k], b)
    requires i < |t| ==> Before(order, b, t[i])
    ensures Sorted(order, t[..i] + [b] + t[i..])
  {}

  /** make_heap and push_heap: some rearrangement of the list in heap order. Callers use only this
      contract; the body shows that there is one, the largest first. */
  method MakeHeap(s: seq<Block>) returns (h: seq<Block>)
    ensures multiset(h) == multiset(s) && IsHeap(h)
  {
    h := Sort(s, LargestFirst);
    assert forall i, j :: 0 <= i < j < |h| ==> Before(LargestFirst, h[i], h[j]);
  }

  /** pop_heap: the top moves to the end, the others stay in heap order. */
  method PopHeap(s: seq<Block>) returns (h: seq<Block>)
    requires IsHeap(s) && s != []
    ensures |h| == |s| && h[|s| - 1] == s[0] && IsHeap(h[..|s| - 1])
    ensures multiset(h[..|s| - 1]) == multiset(s[1..])
  {
    var rest := MakeHeap(s[1..]);
    assert |multiset(rest)| == |rest| && |multiset(s[1..])| == |s[1..]|;
    h := rest + [s[0]];
    assert h[..|s| - 1] == rest;
  }

  // ----- merging neighbours

  /** Blocks in address order that do not overlap. */
  predicate Laid(s: seq<Block>) {
    (|s| > 1 ==> forall i :: 0 <= i < |s| ==> s[i].size > 0) &&
    forall i, j :: 0 <= i < j < |s| ==> s[i].End() <= s[j].memory
  }

  lemma {:induction false} CoverIndex(s: seq<Block>, i: nat, x: int)
    requires i < |s| && s[i].Has(x)
    ensures Cover(s, x) > 0
  {
    Without(s, i, x);
  }

  lemma CoverTwo(s: seq<Block>, i: nat, j: nat, x: int)
    requires i < j < |s| && s[i].Has(x) && s[j].Has(x)
    ensures Cover(s, x) > 1
  {
    Without(s, j, x);
    CoverIndex(s[..j] + s[j + 1..], i, x);
  }

  lemma {:induction false} Covered(s: seq<Block>, x: int) returns (i: nat)
    requires Cover(s, x) > 0
    ensures i < |s| && s[i].Has(x)
    decreases |s|
  {
    if s[|s| - 1].Has(x) { i := |s| - 1; } else { i := Covered(s[..|s| - 1], x); }
  }

  lemma SortedIsLaid(s: seq<Block>)
    requires Sorted(ByAddress, s) && (|s| > 1 ==> forall i :: 0 <= i < |s| ==> s[i].size > 0)
    requires forall x :: Cover(s, x) <= 1
    ensures Laid(s)
  {
    forall i, j | 0 <= i < j < |s| ensures s[i].End() <= s[j].memory {
      assert Before(ByAddress, s[i], s[j]);
      if s[i].End() > s[j].memory { CoverTwo(s, i, j, s[j].memory); }
    }
  }

  lemma Replaced(s: seq<Block>, i: nat, b: Block, x: int)
    requires i < |s|
    ensures Cover(s[i := b], x) + (if s[i].Has(x) then 1 else 0) == Cover(s, x) + if b.Has(x) then 1 else 0
    ensures Bytes(s[i := b]) + s[i].size == Bytes(s) + b.size
  {
    Without(s, i, x);
    Without(s[i := b], i, x);
    assert s[i := b][..i] == s[..i] && s[i := b][i + 1..] == s[i + 1..];
  }

  ghost predicate SameBytes(s: seq<Block>, t: seq<Block>) {
    Bytes(s) == Bytes(t) && forall x :: Cover(s, x) == Cover(t, x)
  }

  /** The finished blocks, those before i, end strictly before every later block that is not empty. */
  ghost predicate Spaced(t: seq<Block>, i: nat) {
    forall k, m :: 0 <= k < i && k < m < |t| && t[k].size > 0 && t[m].size > 0 ==> t[k].End() < t[m].memory
  }

  /** t is s with neighbours merged so far: blocks before i are final, i is growing and has taken in
      the blocks up to n, which are empty now, the blocks from n on are untouched. */
  ghost predicate Merging(s: seq<Block>, t: seq<Block>, i: nat, n: nat) {
    |t| == |s| && i <= n <= |s| && SameBytes(s, t) &&
    (forall k :: 0 <= k < |s| ==> t[k].memory == s[k].memory) &&
    (forall k :: n <= k < |s| ==> t[k] == s[k]) &&
    (forall k :: i < k < n ==> t[k].size == 0) &&
    Spaced(t, i) &&
    (i < n ==> t[i].End() == s[n - 1].End())
  }

  lemma MergeOpen(s: seq<Block>, t: seq<Block>, n: nat)
    requires Laid(s) && Merging(s, t, n, n) && n < |s|
    ensures Merging(s, t, n, n + 1)
  {}

  function Merged(t: seq<Block>, i: nat, n: nat): (r: seq<Block>)
    requires i < n < |t|
    ensures |r| == |t|
  {
    t[i := Block(t[i].memory, t[i].size + t[n].size)][n := Block(t[n].memory, 0)]
  }

  lemma MergeStep(s: seq<Block>, t: seq<Block>, i: nat, n: nat)
    requires Laid(s) && Merging(s, t, i, n) && i < n < |s| && t[i].End() == t[n].memory
    ensures Merging(s, Merged(t, i, n), i, n + 1)
  {
    hide SameBytes, Cover, Bytes, Spaced, Laid;
    MergedSame(t, i, n);
    SameTrans(s, t, Merged(t, i, n));
    MergedSpaced(t, i, n);
  }

  lemma MergedSpaced(t: seq<Block>, i: nat, n: nat)
    requires Spaced(t, i) && i < n < |t| && t[i].End() == t[n].memory
    ensures Spaced(Merged(t, i, n), i)
  {
    var t' := Merged(t, i, n);
    forall k, m | 0 <= k < i && k < m < |t| && t'[k].size > 0 && t'[m].size > 0 ensures t'[k].End() < t'[m].memory {
      if m == i && t[i].size == 0 { assert t[k].End() < t[n].memory; }
    }
  }

  lemma MergedSame(t: seq<Block>, i: nat, n: nat)
    requires i < n < |t| && t[i].End() == t[n].memory
    ensures SameBytes(t, Merged(t, i, n))
  {
    MergedSameAt(t, i, n, 0);
    forall x ensures Cover(t, x) == Cover(Merged(t, i, n), x) { MergedSameAt(t, i, n, x); }
  }

  lemma MergedSameAt(t: seq<Block>, i: nat, n: nat, x: int)
    requires i < n < |t| && t[i].End() == t[n].memory
    ensures Cover(t, x) == Cover(Merged(t, i, n), x) && Bytes(t) == Bytes(Merged(t, i, n))
  {
    hide Cover, Bytes;
    var grown := Block(t[i].memory, t[i].size + t[n].size);
    Replaced(t, i, grown, x);
    Replaced(t[i := grown], n, Block(t[n].memory, 0), x);
  }

  lemma MergeClose(s: seq<Block>, t: seq<Block>, i: nat, n: nat)
    requires Laid(s) && Merging(s, t, i, n) && i < n
    requires n < |s| ==> t[i].End() != t[n].memory
    ensures Merging(s, t, n, n) && forall k :: i < k < n ==> t[k].size == 0
  {
    forall m | i < m < |s| && t[m].size > 0 ensures t[i].End() < t[m].memory {
      assert s[n - 1].End() <= s[n].memory;
      if m > n { assert s[n].End() <= s[m].memory; }
    }
  }

  lemma MergeStart(s: seq<Block>)
    ensures Merging(s, s, 0, 0)
  {}

  lemma EmptyAlone(s: seq<Block>, t: seq<Block>, f: nat, i: nat)
    requires Laid(s) && Merging(s, t, f, f) && i < f && t[i].size == 0
    ensures i + 1 < |s| ==> t[i].memory + t[i].size != t[i + 1].memory
  {
    if i + 1 < |s| { assert s[i].End() <= s[i + 1].memory; }
  }

  /** The two loops of defragment, on a list in address order: i and n are the iterators. */
  method Coalesce(s: seq<Block>) returns (t: seq<Block>)
    requires Laid(s)
    ensures Merging(s, t, |s|, |s|)
  {
    hide Merging, Laid, Merged;
    t := s;
    var i, n := 0, 0;
    ghost var f := 0;  // how far blocks have been merged
    MergeStart(s);
    while i != |s| && n != |s|
      invariant 0 <= i <= f <= |s| && |t| == |s| && 0 <= n <= |s|
      invariant Merging(s, t, f, f) && forall k :: i <= k < f ==> t[k].size == 0
      invariant (i == 0 ==> n == 0) && (n == |s| && i > 0 ==> f == |s|)
    {
      n := i + 1;
      if i == f { MergeOpen(s, t, i); } else { EmptyAlone(s, t, f, i); }
      while n != |s| && t[i].memory + t[i].size == t[n].memory
        invariant i < n <= |t| == |s|
        invariant i == f ==> Merging(s, t, i, n)
        invariant i < f ==> n == i + 1 && Merging(s, t, f, f) && forall k :: i <= k < f ==> t[k].size == 0
        invariant i < f && n < |s| ==> t[i].memory + t[i].size != t[n].memory
        decreases |s| - n
      {
        MergeStep(s, t, i, n);
        t := Merged(t, i, n);
        n := n + 1;
      }
      if i == f { MergeClose(s, t, i, n); f := n; }
      i := i + 1;
    }
  }

  /** remove_if with an empty-block test, then erase. */
  function NonEmpty(s: seq<Block>): (r: seq<Block>)
    ensures forall b :: b in r <==> b in s && b.size > 0
  {
    if s == [] then []
    else NonEmpty(s[..|s| - 1]) + if s[|s| - 1].size > 0 then [s[|s| - 1]] else []
  }

  lemma {:induction false} NonEmptySame(s: seq<Block>, x: int)
    ensures Cover(NonEmpty(s), x) == Cover(s, x) && Bytes(NonEmpty(s)) == Bytes(s)
  {
    hide Cover, Bytes;
    if s == [] {
      assert NonEmpty(s) == s;
    } else {
      var front, b := s[..|s| - 1], s[|s| - 1];
      NonEmptySame(front, x);
      assert s == front + [b];
      Concat(front, [b], x);
      Concat(NonEmpty(front), [b], x);
      One(b, x);
      assert b.size == 0 ==> NonEmpty(s) == NonEmpty(front);
    }
  }

  /** No block ends where another one starts. */
  ghost predicate Apart(s: seq<Block>) { forall b, c :: b in s && c in s ==> b.End() != c.memory }

  lemma MergedIsApart(s: seq<Block>, t: seq<Block>)
    requires Laid(s) && Merging(s, t, |s|, |s|)
    ensures Apart(NonEmpty(t))
  {
    hide NonEmpty;
    forall b, c | b in NonEmpty(t) && c in NonEmpty(t) ensures b.End() != c.memory {
      var k :| 0 <= k < |t| && t[k] == b;
      var m :| 0 <= m < |t| && t[m] == c;
      MergedPair(s, t, k, m);
    }
  }

  lemma MergedPair(s: seq<Block>, t: seq<Block>, k: nat, m: nat)
    requires Laid(s) && Merging(s, t, |s|, |s|) && k < |t| && m < |t| && t[k].size > 0 && t[m].size > 0
    ensures t[k].End() != t[m].memory
  {
    hide SameBytes;
    if k < m {
      assert t[k].End() < t[m].memory;
    } else if m < k {
      assert s[m].End() <= s[k].memory;
    }
  }

  // ----- tiling

  ghost predicate Positive(s: seq<Block>) { forall b :: b in s ==> b.size > 0 }

  lemma PositiveReordered(s: seq<Block>, t: seq<Block>)
    requires multiset(s) == multiset(t) && Positive(s)
    ensures Positive(t)
  {
    forall b | b in t ensures b.size > 0 { assert b in multiset(t); }
  }

  /** Free and live blocks cover every byte of the region once and nothing outside it. */
  ghost predicate Tiles(free: seq<Block>, live: seq<Block>, base: int, size: nat) {
    forall x :: Cover(free, x) + Cover(live, x) == if base <= x < base + size then 1 else 0
  }

  /** With nothing live, blocks that are apart are one block: the region. */
  lemma OneBlock(free: seq<Block>, base: int, size: nat)
    requires Tiles(free, [], base, size) && Apart(free) && size > 0
    requires Positive(free)
    ensures free == [Block(base, size)]
  {
    assert forall x :: Cover(free, x) == if base <= x < base + size then 1 else 0;
    var i := Covered(free, base);
    var b := free[i];
    assert b in free;
    InRegion(free, base, size, i);
    if b.End() < base + size {
      var j := Covered(free, b.End());
      assert free[j] in free;
      if free[j].memory < b.End() { NoOverlap(free, base, size, i, j, b.End() - 1); }
    }
    assert b == Block(base, size);
    if |free| > 1 {
      var j := if i == 0 then 1 else 0;
      assert free[j] in free;
      InRegion(free, base, size, j);
      NoOverlap(free, base, size, i, j, free[j].memory);
    }
    assert free == [free[0]];
  }

  lemma InRegion(free: seq<Block>, base: int, size: nat, i: nat)
    requires forall x :: Cover(free, x) == if base <= x < base + size then 1 else 0
    requires i < |free| && free[i].size > 0
    ensures base <= free[i].memory && free[i].End() <= base + size
  {
    CoverIndex(free, i, free[i].memory);
    CoverIndex(free, i, free[i].End() - 1);
  }

  lemma NoOverlap(free: seq<Block>, base: int, size: nat, i: nat, j: nat, x: int)
    requires forall x :: Cover(free, x) == if base <= x < base + size then 1 else 0
    requires i < |free| && j < |free| && i != j && free[i].Has(x)
    ensures !free[j].Has(x)
  {
    if free[j].Has(x) {
      if i < j { CoverTwo(free, i, j, x); } else { CoverTwo(free, j, i, x); }
    }
  }

  lemma ReorderedAll(s: seq<Block>, t: seq<Block>)
    requires multiset(s) == multiset(t)
    ensures SameBytes(s, t)
  {
    Reordered(s, t, 0);
    forall x ensures Cover(s, x) == Cover(t, x) { Reordered(s, t, x); }
  }

  lemma BytesSame(s: seq<Block>, t: seq<Block>)
    requires SameBytes(s, t)
    ensures Bytes(s) == Bytes(t)
  {}

  /** Splitting the front off the top of the heap. */
  function Rest(top: Block, bytes: nat): seq<Block>
    requires bytes <= top.size
  {
    if top.size > bytes then [Block(top.memory + bytes, top.size - bytes)] else []
  }

  lemma RestCover(top: Block, bytes: nat, x: int)
    requires bytes <= top.size
    ensures Cover(Rest(top, bytes), x) + Cover([Block(top.memory, bytes)], x) == if top.Has(x) then 1 else 0
    ensures Bytes(Rest(top, bytes)) == top.size - bytes
  {
    One(Block(top.memory, bytes), x);
    if top.size > bytes { One(Rest(top, bytes)[0], x); }
  }

  lemma AllocatedAt(before: seq<Block>, free: seq<Block>, live: seq<Block>, bytes: nat, x: int)
    requires before != [] && 0 < bytes <= before[0].size
    requires multiset(free) == multiset(before[1..] + Rest(before[0], bytes))
    ensures Cover(free, x) + Cover(live + [Block(before[0].memory, bytes)], x) == Cover(before, x) + Cover(live, x)
    ensures Bytes(free) == Bytes(before) - bytes
  {
    hide Cover, Bytes, Rest;
    var top, rest := before[0], Rest(before[0], bytes);
    Reordered(free, before[1..] + rest, x);
    Concat(before[1..], rest, x);
    Concat(live, [Block(top.memory, bytes)], x);
    RestCover(top, bytes, x);
    assert before == [top] + before[1..];
    Concat([top], before[1..], x);
    One(top, x);
  }

  // ----- the allocator

  datatype Pointer = Null | At(address: int)

  class LargeBlockAllocator {
    const base: int
    const maxBytes: nat
    var freeList: seq<Block>
    var freeBytes: int
    ghost var live: seq<Block>  // what has been allocated and not yet given back

    ghost predicate Valid()
      reads this
    {
      IsHeap(freeList) && freeBytes == Bytes(freeList) && Tiles(freeList, live, base, maxBytes) &&
      Positive(live) && (if maxBytes > 0 then Positive(freeList) else |freeList| <= 1)
    }

    constructor (memory: int, size: nat)
      ensures Valid() && base == memory && maxBytes == size
      ensures live == [] && freeBytes == size && freeList == [Block(memory, size)]
    {
      base, maxBytes := memory, size;
      freeList, freeBytes, live := [Block(memory, size)], size, [];
      new;
      assert freeList[..0] == [];
    }

    /** push_free_record_ */
    method PushFree(b: Block)
      requires IsHeap(freeList) && freeBytes == Bytes(freeList)
      modifies this`freeList, this`freeBytes
      ensures IsHeap(freeList) && freeBytes == Bytes(freeList) == old(freeBytes) + b.size
      ensures multiset(freeList) == multiset(old(freeList) + [b])
      ensures SameBytes(freeList, old(freeList) + [b])
    {
      var all := freeList + [b];
      assert all[..|all| - 1] == freeList;
      freeBytes := freeBytes + b.size;
      freeList := MakeHeap(all);
      ReorderedAll(freeList, all);
    }

    /** pop_free_record_ */
    method PopFree()
      requires IsHeap(freeList) && freeBytes == Bytes(freeList) && freeList != []
      modifies this`freeList, this`freeBytes
      ensures IsHeap(freeList) && freeBytes == Bytes(freeList) == old(freeBytes) - old(freeList)[0].size
      ensures multiset(freeList) == multiset(old(freeList)[1..])
      ensures SameBytes(freeList, old(freeList)[1..])
    {
      hide Cover, Bytes, IsHeap, SameBytes;
      ghost var before, rest := freeList, freeList[1..];
      Without(before, 0, 0);
      assert before[..0] + rest == rest;
      var all := PopHeap(freeList);
      freeBytes := freeBytes - all[|all| - 1].size;
      freeList := all[..|all| - 1];
      ReorderedAll(freeList, rest);
      BytesSame(freeList, rest);
    }

    /** Takes the front of a largest free block; null exactly when no single free block is large enough. */
    method Allocate(bytes: nat) returns (memory: Pointer)
      requires Valid() && bytes > 0
      modifies this
      ensures Valid()
      ensures memory == Null <==> forall b :: b in old(freeList) ==> b.size < bytes
      ensures memory == Null ==> freeList == old(freeList) && freeBytes == old(freeBytes) && live == old(live)
      ensures memory != Null ==>
        live == old(live) + [Block(memory.address, bytes)] && freeBytes == old(freeBytes) - bytes &&
        exists b :: b in old(freeList) && b.memory == memory.address && b.size >= bytes &&
                    forall c :: c in old(freeList) ==> c.size <= b.size
    {
      hide Cover, Bytes, IsHeap, SameBytes, Tiles, Positive;
      memory := Null;
      var rec := if freeList != [] then freeList[0] else Block(0, 0);
      TopIsLargest(freeList);
      if rec.size >= bytes {
        ghost var before := freeList;
        assert rec == before[0] && rec in before;
        TopInRegion(before, live, base, maxBytes);
        PopFree();
        if rec.size > bytes {
          var fragment := Block(rec.memory + bytes, rec.size - bytes);
          PushFree(fragment);
        }
        memory := At(rec.memory);
        Allocated(before, freeList, live, base, maxBytes, bytes);
        live := live + [Block(rec.memory, bytes)];
      }
    }

    /** Gives back a block exactly as allocate returned it. */
    method Deallocate(memory: int, bytes: nat)
      requires Valid() && Block(memory, bytes) in live
      modifies this
      ensures Valid() && freeBytes == old(freeBytes) + bytes
      ensures multiset(live) == multiset(old(live)) - multiset{Block(memory, bytes)}
      ensures multiset(freeList) == multiset(old(freeList)) + multiset{Block(memory, bytes)}
    {
      hide Cover, Bytes, IsHeap, SameBytes, Tiles;
      ghost var b := Block(memory, bytes);
      ghost var i :| 0 <= i < |live| && live[i] == b;
      ghost var before := freeList;
      LiveInRegion(freeList, live, base, maxBytes, i);
      PushFree(Block(memory, bytes));
      PositiveReordered(before + [b], freeList);
      Freed(before, freeList, live, base, maxBytes, i);
      Removed(live, i);
      forall c | c in live[..i] + live[i + 1..] ensures c in live {}
      live := live[..i] + live[i + 1..];
    }

    /** Merges all neighbouring free blocks. */
    method Defragment()
      requires Valid()
      modifies this`freeList
      ensures Valid() && SameBytes(old(freeList), freeList)
      ensures Apart(freeList)
    {
      hide Tiles, Merging, IsHeap, Laid, Cover, Bytes, SameBytes, Apart;
      var sorted := Sort(freeList, ByAddress);
      ReorderedAll(freeList, sorted);
      SortedTiles(freeList, sorted, live, base, maxBytes);
      var merged := Coalesce(sorted);
      var kept := NonEmpty(merged);
      KeptSame(sorted, merged, kept);
      MergedIsApart(sorted, merged);
      freeList := MakeHeap(kept);
      ReorderedAll(kept, freeList);
      ApartReordered(kept, freeList);
      PositiveReordered(kept, freeList);
      SameTrans(old(freeList), sorted, kept);
      SameTrans(old(freeList), kept, freeList);
      assert |freeList| <= |old(freeList)| by {
        assert |multiset(freeList)| == |freeList| && |multiset(kept)| == |kept|;
        assert |multiset(sorted)| == |sorted| && |multiset(old(freeList))| == |old(freeList)|;
      }
      SameTiles(old(freeList), freeList, live, base, maxBytes);
    }
  }

  lemma TopIsLargest(s: seq<Block>)
    requires IsHeap(s)
    ensures forall b :: b in s ==> b.size <= s[0].size
  {
    forall b | b in s ensures b.size <= s[0].size {
      var i :| 0 <= i < |s| && s[i] == b;
      HeapTop(s, i);
    }
  }

  lemma TopInRegion(free: seq<Block>, live: seq<Block>, base: int, size: nat)
    requires Tiles(free, live, base, size) && free != [] && free[0].size > 0
    ensures size > 0
  {
    CoverIndex(free, 0, free[0].memory);
  }

  lemma Allocated(before: seq<Block>, free: seq<Block>, live: seq<Block>, base: int, size: nat, bytes: nat)
    requires Tiles(before, live, base, size) && before != [] && 0 < bytes <= before[0].size
    requires Positive(before) && Positive(live)
    requires multiset(free) == multiset(before[1..] + Rest(before[0], bytes))
    ensures Tiles(free, live + [Block(before[0].memory, bytes)], base, size)
    ensures Positive(free) && Positive(live + [Block(before[0].memory, bytes)])
    ensures Bytes(free) == Bytes(before) - bytes
  {
    AllocatedAt(before, free, live, bytes, 0);
    forall x
      ensures Cover(free, x) + Cover(live + [Block(before[0].memory, bytes)], x) == Cover(before, x) + Cover(live, x)
    {
      AllocatedAt(before, free, live, bytes, x);
    }
    PositiveReordered(before[1..] + Rest(before[0], bytes), free);
  }

  lemma Freed(before: seq<Block>, free: seq<Block>, live: seq<Block>, base: int, size: nat, i: nat)
    requires Tiles(before, live, base, size) && i < |live|
    requires multiset(free) == multiset(before + [live[i]])
    ensures Tiles(free, live[..i] + live[i + 1..], base, size)
  {
    forall x ensures Cover(free, x) + Cover(live[..i] + live[i + 1..], x) == Cover(before, x) + Cover(live, x) {
      Reordered(free, before + [live[i]], x);
      Concat(before, [live[i]], x);
      One(live[i], x);
      Without(live, i, x);
    }
  }

  lemma LiveInRegion(free: seq<Block>, live: seq<Block>, base: int, size: nat, i: nat)
    requires Tiles(free, live, base, size) && i < |live| && live[i].size > 0
    ensures size > 0
  {
    CoverIndex(live, i, live[i].memory);
  }

  lemma SortedTiles(free: seq<Block>, sorted: seq<Block>, live: seq<Block>, base: int, size: nat)
    requires Tiles(free, live, base, size) && multiset(sorted) == multiset(free) && Sorted(ByAddress, sorted)
    requires if size > 0 then Positive(free) else |free| <= 1
    ensures Laid(sorted)
  {
    forall x ensures Cover(sorted, x) <= 1 { Reordered(sorted, free, x); }
    assert |multiset(sorted)| == |sorted| && |multiset(free)| == |free|;
    forall i | 0 <= i < |sorted| && |sorted| > 1 ensures sorted[i].size > 0 {
      assert sorted[i] in multiset(sorted);
      assert sorted[i] in free;
    }
    SortedIsLaid(sorted);
  }

  lemma KeptSame(sorted: seq<Block>, merged: seq<Block>, kept: seq<Block>)
    requires Merging(sorted, merged, |sorted|, |sorted|) && kept == NonEmpty(merged)
    ensures SameBytes(sorted, kept)
    ensures |kept| <= |sorted|
  {
    NonEmptySame(merged, 0);
    forall x ensures Cover(sorted, x) == Cover(kept, x) { NonEmptySame(merged, x); }
    NonEmptyShorter(merged);
  }

  lemma {:induction false} NonEmptyShorter(s: seq<Block>)
    ensures |NonEmpty(s)| <= |s|
  {
    if s != [] { NonEmptyShorter(s[..|s| - 1]); }
  }

  lemma SameTrans(s: seq<Block>, t: seq<Block>, u: seq<Block>)
    requires SameBytes(s, t) && SameBytes(t, u)
    ensures SameBytes(s, u) && Bytes(s) == Bytes(u)
  {}

  lemma ApartReordered(s: seq<Block>, t: seq<Block>)
    requires multiset(s) == multiset(t) && Apart(s)
    ensures Apart(t)
  {
    forall b, c | b in t && c in t ensures b.End() != c.memory {
      assert b in multiset(t) && c in multiset(t);
    }
  }

  lemma SameTiles(free: seq<Block>, free': seq<Block>, live: seq<Block>, base: int, size: nat)
    requires Tiles(free, live, base, size) && SameBytes(free, free')
    ensures Tiles(free', live, base, size)
  {}

  /** Once everything has been given back, defragment leaves one block, the whole region. */
  method FreeAll(a: LargeBlockAllocator)
    requires a.Valid() && a.live == [] && a.maxBytes > 0
    modifies a`freeList
    ensures a.Valid() && a.freeList == [Block(a.base, a.maxBytes)] && a.freeBytes == a.maxBytes
  {
    a.Defragment();
    OneBlock(a.freeList, a.base, a.maxBytes);
    One(a.freeList[0], 0);
  }
}
