/** The order-statistics tree of exercises/remove-nth.cpp: finds and removes the n-th remaining value
    of a list by decrementing the weights on the way down. */
module RemoveNth {

  datatype Interval = Interval(begin: int, end: int) {
    function Size(): int { end - begin }
    predicate Contains(i: int) { Size() > 0 && begin <= i <= end }
  }

  class Node {
    var left: Node?
    var right: Node?
    var leftWeight: int
    var rightWeight: int
    var value: int          // of a leaf
    ghost var repr: set<Node>
    ghost var live: seq<int>  // the values below this node that have not been removed

    ghost predicate Valid()
      reads this, repr
      decreases repr
    {
      this in repr &&
      if left == null && right == null then
        live == [] || live == [value]
      else
        left != null && right != null &&
        left in repr && right in repr && left.repr < repr && right.repr < repr &&
        this !in left.repr && this !in right.repr && left.repr !! right.repr &&
        left.Valid() && right.Valid() &&
        live == left.live + right.live &&
        leftWeight == |left.live| && rightWeight == |right.live|
    }

    constructor Leaf(v: int)
      ensures Valid() && fresh(repr) && live == [v] && left == null && right == null
    {
      value, left, right := v, null, null;
      repr, live := {this}, [v];
    }

    constructor Inner(l: Node, r: Node, lw: int, rw: int)
      requires l.Valid() && r.Valid() && l.repr !! r.repr && lw == |l.live| && rw == |r.live|
      ensures Valid() && fresh(repr - l.repr - r.repr) && live == l.live + r.live
      ensures left == l && right == r && leftWeight == lw && rightWeight == rw
    {
      left, right, leftWeight, rightWeight := l, r, lw, rw;
      repr := {this} + l.repr + r.repr;
      live := l.live + r.live;
    }
  }

  lemma Halves(values: seq<int>, k: nat, n: nat)
    requires k <= n <= |values|
    ensures values[..k] + values[k..][..n - k] == values[..n] && values[k..][n - k..] == values[n..]
  {}

  /** Builds the tree over the next `cardinality` values; the rest of the values is left over. */
  method InitNodeRecursive(values: seq<int>, cardinality: nat) returns (n: Node, rest: seq<int>)
    requires 1 <= cardinality <= |values|
    ensures n.Valid() && fresh(n.repr)
    ensures n.live == values[..cardinality] && rest == values[cardinality..]
    ensures cardinality > 1 ==> n.left != null && n.right != null
    decreases cardinality
  {
    if cardinality == 1 {
      n := new Node.Leaf(values[0]);
      rest := values[1..];
    } else {
      var leftCardinality := cardinality / 2;
      var rightCardinality := cardinality - cardinality / 2;
      var l, r;
      Halves(values, leftCardinality, cardinality);
      l, rest := InitNodeRecursive(values, leftCardinality);
      r, rest := InitNodeRecursive(rest, rightCardinality);
      n := new Node.Inner(l, r, leftCardinality, rightCardinality);
    }
  }

  /** The list without its n-th value, counting from 1. */
  function Without(s: seq<int>, nth: int): seq<int>
    requires 1 <= nth <= |s|
  {
    s[..nth - 1] + s[nth..]
  }

  lemma WithoutConcat(a: seq<int>, b: seq<int>, nth: int)
    requires 1 <= nth <= |a| + |b|
    ensures (a + b)[nth - 1] == if nth <= |a| then a[nth - 1] else b[nth - |a| - 1]
    ensures Without(a + b, nth) == if nth <= |a| then Without(a, nth) + b else a + Without(b, nth - |a|)
    ensures |Without(a + b, nth)| == |a| + |b| - 1
  {}

  lemma WithoutOnly(a: seq<int>, nth: int)
    requires |a| == 1 && nth == 1
    ensures Without(a, nth) == []
  {}

  lemma WithoutLength(a: seq<int>, nth: int)
    requires 1 <= nth <= |a|
    ensures |Without(a, nth)| == |a| - 1
  {}

  /** The values below n are numbered from i.begin + 1; returns and removes the one numbered nth. */
  method FindNthRecursive(n: Node, i: Interval, nth: int) returns (v: int)
    requires n.Valid() && i.begin < nth <= i.begin + |n.live|
    modifies n.repr
    ensures n.Valid() && n.repr == old(n.repr) && n.left == old(n.left) && n.right == old(n.right)
    ensures v == old(n.live)[nth - i.begin - 1]
    ensures n.live == Without(old(n.live), nth - i.begin)
    decreases n.repr, 1
  {
    hide Without;
    if n.left == null && n.right == null {
      WithoutOnly(n.live, nth - i.begin);
      n.live := [];
      return n.value;
    }
    WithoutConcat(n.left.live, n.right.live, nth - i.begin);
    var left := Interval(i.begin + 0, i.begin + n.leftWeight);
    var right := Interval(i.begin + n.leftWeight, i.begin + n.leftWeight + n.rightWeight);
    if left.Contains(nth) {
      v := FindInLeft(n, left, nth);
      return;
    }
    if right.Contains(nth) {
      v := FindInRight(n, right, nth);
      return;
    }
    assert false;
  }

  method FindInLeft(n: Node, left: Interval, nth: int) returns (v: int)
    requires n.Valid() && n.left != null && left.begin < nth <= left.begin + |n.left.live|
    modifies n.repr
    ensures n.Valid() && n.repr == old(n.repr) && n.left == old(n.left) && n.right == old(n.right)
    ensures v == old(n.left.live)[nth - left.begin - 1]
    ensures n.live == Without(old(n.left.live), nth - left.begin) + old(n.right.live)
    decreases n.repr, 0
  {
    hide Without;
    ghost var l, r := n.left.live, n.right.live;
    n.leftWeight := n.leftWeight - 1;
    n.live := Without(l, nth - left.begin) + r;
    WithoutLength(l, nth - left.begin);
    v := FindNthRecursive(n.left, left, nth);
    assert n.right.Valid() && n.right.live == r;
  }

  method FindInRight(n: Node, right: Interval, nth: int) returns (v: int)
    requires n.Valid() && n.right != null && right.begin < nth <= right.begin + |n.right.live|
    modifies n.repr
    ensures n.Valid() && n.repr == old(n.repr) && n.left == old(n.left) && n.right == old(n.right)
    ensures v == old(n.right.live)[nth - right.begin - 1]
    ensures n.live == old(n.left.live) + Without(old(n.right.live), nth - right.begin)
    decreases n.repr, 0
  {
    hide Without;
    ghost var l, r := n.left.live, n.right.live;
    n.rightWeight := n.rightWeight - 1;
    n.live := l + Without(r, nth - right.begin);
    WithoutLength(r, nth - right.begin);
    v := FindNthRecursive(n.right, right, nth);
    assert n.left.Valid() && n.left.live == l;
  }

  method BuildTree(list: seq<int>) returns (head: Node)
    requires |list| >= 2
    ensures head.Valid() && fresh(head.repr) && head.live == list
    ensures head.left != null && head.right != null
  {
    var rest;
    head, rest := InitNodeRecursive(list, |list|);
  }

  method FindNth(n: Node, nth: int) returns (v: int)
    requires n.Valid() && n.left != null && n.right != null && 1 <= nth <= |n.live|
    modifies n.repr
    ensures n.Valid() && n.repr == old(n.repr) && n.left != null && n.right != null
    ensures v == old(n.live)[nth - 1] && n.live == Without(old(n.live), nth)
  {
    v := FindNthRecursive(n, Interval(0, n.leftWeight + n.rightWeight), nth);
  }

  // ----- whole runs of queries

  /** Every query names one of the values that are left when it is made. */
  predicate InRange(list: seq<int>, queries: seq<int>)
    decreases |queries|
  {
    queries == [] || (1 <= queries[0] <= |list| && InRange(Without(list, queries[0]), queries[1..]))
  }

  /** What the plain list answers, and what it keeps. */
  function Answers(list: seq<int>, queries: seq<int>): seq<int>
    requires InRange(list, queries)
    decreases |queries|
  {
    if queries == [] then []
    else [list[queries[0] - 1]] + Answers(Without(list, queries[0]), queries[1..])
  }

  function Remaining(list: seq<int>, queries: seq<int>): seq<int>
    requires InRange(list, queries)
    decreases |queries|
  {
    if queries == [] then list else Remaining(Without(list, queries[0]), queries[1..])
  }

  /** The answers so far, and those the list gives to the queries that are left, are `total`. */
  ghost predicate Answering(list: seq<int>, queries: seq<int>, answers: seq<int>, total: seq<int>) {
    InRange(list, queries) && answers + Answers(list, queries) == total
  }

  lemma AnswersStart(list: seq<int>, queries: seq<int>)
    requires InRange(list, queries)
    ensures Answering(list, queries, [], Answers(list, queries))
  {
    assert [] + Answers(list, queries) == Answers(list, queries);
  }

  lemma AnswersNext(list: seq<int>, queries: seq<int>, answers: seq<int>, total: seq<int>)
    requires Answering(list, queries, answers, total) && queries != []
    ensures 1 <= queries[0] <= |list|
    ensures Answering(Without(list, queries[0]), queries[1..], answers + [list[queries[0] - 1]], total)
  {
    hide Without;
    var rest := Answers(Without(list, queries[0]), queries[1..]);
    assert answers + ([list[queries[0] - 1]] + rest) == (answers + [list[queries[0] - 1]]) + rest;
  }

  lemma AnswersEnd(list: seq<int>, queries: seq<int>, answers: seq<int>, total: seq<int>)
    requires Answering(list, queries, answers, total) && queries == []
    ensures answers == total
  {}

  /** The tree answers a run of queries as the plain list does. */
  method Run(list: seq<int>, queries: seq<int>) returns (answers: seq<int>)
    requires |list| >= 2 && InRange(list, queries)
    ensures answers == Answers(list, queries)
  {
    hide Answers, InRange, Without, Answering;
    var tree := BuildTree(list);
    answers := [];
    var q := 0;
    assert queries[0..] == queries;
    AnswersStart(list, queries);
    while q < |queries|
      invariant 0 <= q <= |queries| && fresh(tree.repr)
      invariant tree.Valid() && tree.left != null && tree.right != null
      invariant Answering(tree.live, queries[q..], answers, Answers(list, queries))
    {
      assert queries[q..][1..] == queries[q + 1..];
      AnswersNext(tree.live, queries[q..], answers, Answers(list, queries));
      var v := FindNth(tree, queries[q]);
      answers := answers + [v];
      q := q + 1;
    }
    AnswersEnd(tree.live, queries[q..], answers, Answers(list, queries));
  }

  /** Nothing is lost or answered twice: answers and remaining values together are the list. */
  lemma {:induction false} AnswersConserve(list: seq<int>, queries: seq<int>)
    requires InRange(list, queries)
    ensures multiset(Answers(list, queries)) + multiset(Remaining(list, queries)) == multiset(list)
    ensures |Remaining(list, queries)| == |list| - |queries|
    decreases |queries|
  {
    if queries != [] {
      var nth := queries[0];
      var rest := Without(list, nth);
      AnswersConserve(rest, queries[1..]);
      WithoutLength(list, nth);
      assert list == list[..nth - 1] + [list[nth - 1]] + list[nth..];
      assert multiset(list) == multiset{list[nth - 1]} + multiset(rest);
      assert multiset(Answers(list, queries)) == multiset{list[nth - 1]} + multiset(Answers(rest, queries[1..]));
    }
  }
}
