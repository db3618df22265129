/** What several components need: lists without repetition, reversal, lexicographic order, powers of two. */
module Basics {

  predicate Distinct<T(==)>(s: seq<T>) { forall i, j :: 0 <= i < j < |s| ==> s[i] != s[j] }

  // ----- counting without repetition

  lemma {:induction false} DistinctSize<T>(s: seq<T>, all: set<T>)
    requires Distinct(s) && forall x :: x in s ==> x in all
    ensures |s| <= |all|
    ensures (forall x :: x in all ==> x in s) ==> |s| == |all|
    decreases |s|
  {
    if s != [] {
      var x, front := s[|s| - 1], s[..|s| - 1];
      assert s == front + [x];
      assert x in s;
      forall y | y in front ensures y in all - {x} {
        var i :| 0 <= i < |front| && front[i] == y;
        assert s[i] != s[|s| - 1] && s[i] in s;
      }
      DistinctSize(front, all - {x});
      if forall y :: y in all ==> y in s {
        assert forall y :: y in all - {x} ==> y in front;
      }
    } else if all != {} {
      var y :| y in all;
    }
  }

  /** A set is no larger than a list that has all its elements. */
  lemma {:induction false} SetAtMost<T>(a: set<T>, list: seq<T>)
    requires forall x :: x in a ==> x in list
    ensures |a| <= |list|
    decreases |list|
  {
    if list == [] {
      assert a == {};
    } else {
      var x, front := list[|list| - 1], list[..|list| - 1];
      assert list == front + [x];
      SetAtMost(a - {x}, front);
      assert a <= (a - {x}) + {x};
    }
  }

  /** No repetition, and only elements of the list: no longer than the list. */
  lemma Pigeonhole<T>(s: seq<T>, list: seq<T>)
    requires Distinct(s) && forall x :: x in s ==> x in list
    ensures |s| <= |list|
  {
    var all := set x | x in s;
    DistinctSize(s, all);
    SetAtMost(all, list);
  }

  // ----- reversal

  function Reverse(s: seq<int>): (r: seq<int>)
    ensures |r| == |s| && forall k :: 0 <= k < |s| ==> r[k] == s[|s| - 1 - k]
  {
    if s == [] then [] else Reverse(s[1..]) + [s[0]]
  }

  lemma ReverseIs(s: seq<int>, r: seq<int>)
    requires |r| == |s| && forall k :: 0 <= k < |s| ==> r[k] == s[|s| - 1 - k]
    ensures r == Reverse(s)
  {}

  lemma ReverseSnoc(s: seq<int>, x: int)
    ensures Reverse(s + [x]) == [x] + Reverse(s)
  {}

  lemma ReverseConcat(s: seq<int>, t: seq<int>)
    ensures Reverse(s + t) == Reverse(t) + Reverse(s)
  {}

  lemma ReverseTwice(s: seq<int>)
    ensures Reverse(Reverse(s)) == s
  {}

  lemma {:induction false} ReverseKeeps(s: seq<int>)
    ensures multiset(Reverse(s)) == multiset(s)
  {
    if s != [] {
      assert s == [s[0]] + s[1..];
      ReverseKeeps(s[1..]);
    }
  }

  // ----- lexicographic order

  predicate Less(s: seq<int>, t: seq<int>)
    decreases |s|
  {
    t != [] && (s == [] || s[0] < t[0] || (s[0] == t[0] && Less(s[1..], t[1..])))
  }

  lemma {:induction false} LessTotal(s: seq<int>, t: seq<int>)
    ensures s == t || Less(s, t) || Less(t, s)
    decreases |s|
  {
    if s != [] && t != [] && s[0] == t[0] {
      LessTotal(s[1..], t[1..]);
      assert s == [s[0]] + s[1..] && t == [t[0]] + t[1..];
    }
  }

  lemma {:induction false} LessAsymmetric(s: seq<int>, t: seq<int>)
    requires Less(s, t)
    ensures s != t && !Less(t, s)
    decreases |s|
  {
    if s != [] && s[0] == t[0] { LessAsymmetric(s[1..], t[1..]); }
  }

  lemma {:induction false} LessTransitive(s: seq<int>, t: seq<int>, u: seq<int>)
    requires Less(s, t) && Less(t, u)
    ensures Less(s, u)
    decreases |s|
  {
    if s != [] && s[0] == t[0] == u[0] { LessTransitive(s[1..], t[1..], u[1..]); }
  }

  /** A common prefix does not matter. */
  lemma {:induction false} LessAfter(prefix: seq<int>, s: seq<int>, t: seq<int>)
    ensures Less(prefix + s, prefix + t) <==> Less(s, t)
  {
    if prefix == [] {
      assert prefix + s == s && prefix + t == t;
    } else {
      assert (prefix + s)[1..] == prefix[1..] + s && (prefix + t)[1..] == prefix[1..] + t;
      LessAfter(prefix[1..], s, t);
    }
  }

  /** What lies between two sequences with a common prefix has that prefix too. */
  lemma {:induction false} Between(prefix: seq<int>, s: seq<int>, u: seq<int>, t: seq<int>)
    requires Less(prefix + s, u) && Less(u, prefix + t)
    ensures prefix <= u
  {
    if prefix != [] {
      assert (prefix + s)[1..] == prefix[1..] + s && (prefix + t)[1..] == prefix[1..] + t;
      assert (prefix + s)[0] == prefix[0] == (prefix + t)[0] == u[0];
      Between(prefix[1..], s, u[1..], t);
      assert u == [u[0]] + u[1..];
    }
  }

  /** The first difference decides. */
  lemma LessAt(prefix: seq<int>, a: int, s: seq<int>, b: int, t: seq<int>)
    requires a < b && prefix + [a] <= s && prefix + [b] <= t
    ensures Less(s, t)
  {
    var n := |prefix|;
    var s', t' := s[n..], t[n..];
    assert (prefix + [a])[n] == a && (prefix + [b])[n] == b;
    assert s == prefix + s' && t == prefix + t';
    LessAfter(prefix, s', t');
  }

  lemma LessExtended(s: seq<int>, t: seq<int>)
    requires s < t
    ensures Less(s, t)
  {
    assert s == s + [] && t == s + t[|s|..];
    LessAfter(s, [], t[|s|..]);
  }

  // ----- powers of two

  function Pow2(n: nat): (p: nat)
    ensures p > 0
  {
    if n == 0 then 1 else 2 * Pow2(n - 1)
  }

  lemma {:induction false} Pow2Sum(m: nat, n: nat)
    ensures Pow2(m + n) == Pow2(m) * Pow2(n)
  {
    if m > 0 { Pow2Sum(m - 1, n); }
  }

  lemma Pow2Next(n: nat)
    requires n > 0
    ensures Pow2(n) == 2 * Pow2(n - 1)
  {}

  lemma MulAtMost(x: nat, y: nat, p: nat)
    requires x <= y
    ensures x * p <= y * p
  {}
}
