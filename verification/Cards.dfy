/** The card-dealing game of exercises/cards.cpp: deal the top card to the table, put the next one
    under the deck, until the deck is gone; the pile on the table, picked up, is the next deck. */
module Cards {
  import opened Basics

  // ----- one round

  /** The cards in the order they reach the table. */
  function Deal(deck: seq<int>, toTable: bool): (dealt: seq<int>)
    ensures |dealt| == |deck|
    decreases |deck|, if toTable then 0 else 1
  {
    if deck == [] then []
    else if toTable then [deck[0]] + Deal(deck[1..], false)
    else Deal(deck[1..] + [deck[0]], true)
  }

  /** The pile on the table is picked up from its top. */
  function Round(deck: seq<int>): (next: seq<int>)
    ensures |next| == |deck|
  {
    Reverse(Deal(deck, true))
  }

  function Sequential(n: nat): (deck: seq<int>)
    ensures |deck| == n && forall k :: 0 <= k < n ==> deck[k] == k
  {
    seq(n, k => k)
  }

  // ----- a round by positions

  /** The cards at positions 0, 2, 4, …, those a pass that begins with the table deals. */
  function Evens(deck: seq<int>): (s: seq<int>)
    ensures |s| == (|deck| + 1) / 2 && forall k :: 0 <= k < |s| ==> s[k] == deck[2 * k]
  {
    seq((|deck| + 1) / 2, k requires 0 <= k < (|deck| + 1) / 2 => deck[2 * k])
  }

  /** The cards at positions 1, 3, 5, …, those such a pass puts under the deck. */
  function Odds(deck: seq<int>): (s: seq<int>)
    ensures |s| == |deck| / 2 && forall k :: 0 <= k < |s| ==> s[k] == deck[2 * k + 1]
  {
    seq(|deck| / 2, k requires 0 <= k < |deck| / 2 => deck[2 * k + 1])
  }

  /** What is left after one pass, from the card that is dealt next. When the last card of the pass was
      dealt, the first of those left goes under the deck before. */
  function Left(deck: seq<int>): (s: seq<int>)
    ensures |s| == |deck| / 2
  {
    var odds := Odds(deck);
    if |deck| % 2 == 0 || odds == [] then odds else odds[1..] + [odds[0]]
  }

  /** The next deck, pass by pass: the even positions end up at the bottom, the last of them on top, and
      above them, by the same rule, what was left. */
  function Passes(deck: seq<int>): (next: seq<int>)
    ensures |next| == |deck|
    decreases |deck|
  {
    if deck == [] then [] else Passes(Left(deck)) + Reverse(Evens(deck))
  }

  /** With `under` already put under the deck, a pass over `rest` deals its even positions and puts the odd
      ones behind. */
  lemma {:induction false} DealThrough(rest: seq<int>, under: seq<int>)
    ensures Deal(rest + under, true) == Evens(rest) + Deal(under + Odds(rest), |rest| % 2 == 0)
    decreases |rest|
  {
    if rest == [] {
      assert rest + under == under && under + Odds(rest) == under;
      assert Evens(rest) + Deal(under, true) == Deal(under, true);
    } else if |rest| == 1 {
      assert (rest + under)[1..] == under && under + Odds(rest) == under;
      assert Evens(rest) == [rest[0]];
    } else {
      var rest', under' := rest[2..], under + [rest[1]];
      DealTwo(rest, under);
      DealThrough(rest', under');
      assert under' + Odds(rest') == under + Odds(rest);
      assert [rest[0]] + Evens(rest') == Evens(rest);
      assert [rest[0]] + (Evens(rest') + Deal(under + Odds(rest), |rest| % 2 == 0)) ==
             ([rest[0]] + Evens(rest')) + Deal(under + Odds(rest), |rest| % 2 == 0);
    }
  }

  /** One card to the table, one under the deck. */
  lemma DealTwo(rest: seq<int>, under: seq<int>)
    requires |rest| >= 2
    ensures Deal(rest + under, true) == [rest[0]] + Deal(rest[2..] + (under + [rest[1]]), true)
  {
    var deck := rest + under;
    assert deck[1..][1..] + [deck[1..][0]] == rest[2..] + (under + [rest[1]]);
  }

  lemma {:induction false} RoundIsPasses(deck: seq<int>)
    ensures Round(deck) == Passes(deck)
    decreases |deck|
  {
    if deck != [] {
      var odds := Odds(deck);
      DealThrough(deck, []);
      assert deck + [] == deck && [] + odds == odds;
      if |deck| % 2 != 0 && odds != [] { assert Deal(odds, false) == Deal(Left(deck), true); }
      RoundIsPasses(Left(deck));
      hide Deal, Evens, Odds, Left, Reverse;
      ReverseConcat(Evens(deck), Deal(Left(deck), true));
    }
  }

  /** Every second card is dealt at once, and the cards dealt first lie at the bottom of the next deck. */
  lemma RoundDealsEvens(deck: seq<int>, k: nat)
    requires 2 * k < |deck|
    ensures Round(deck)[|deck| - 1 - k] == deck[2 * k]
  {
    hide Round, Passes, Left, Evens, Reverse;
    RoundIsPasses(deck);
    var next, top, bottom := Round(deck), Passes(Left(deck)), Reverse(Evens(deck));
    PassIs(deck, Left(deck), Evens(deck));
    assert next == top + bottom && next[|deck| - 1 - k] == bottom[|bottom| - 1 - k];
  }

  /** Four cards: 0 is dealt, 1 goes under, 2 is dealt, 3 goes under, 1 is dealt, 3 goes under again and is
      dealt last. */
  lemma RoundOfFour()
    ensures Round([0, 1, 2, 3]) == [3, 1, 2, 0]
  {
    RoundIsPasses([0, 1, 2, 3]);
    PassIs([0, 1, 2, 3], [1, 3], [0, 2]);
    PassIs([1, 3], [3], [1]);
    PassIs([3], [], [3]);
  }

  lemma PassIs(deck: seq<int>, left: seq<int>, evens: seq<int>)
    requires deck != [] && left == Left(deck) && evens == Evens(deck)
    ensures Passes(deck) == Passes(left) + Reverse(evens)
  {}

  // ----- a round moves positions, whatever the cards

  /** The deck whose card at position k is the card that `deck` has at position p[k]. */
  function Pick(deck: seq<int>, p: seq<int>): (picked: seq<int>)
    requires Positions(p, |deck|)
    ensures |picked| == |p| && forall k :: 0 <= k < |p| ==> picked[k] == deck[p[k]]
  {
    seq(|p|, k requires 0 <= k < |p| => deck[p[k]])
  }

  predicate Positions(p: seq<int>, n: nat) { forall k :: 0 <= k < |p| ==> 0 <= p[k] < n }

  lemma {:induction false} DealPicks(deck: seq<int>, p: seq<int>, toTable: bool)
    requires Positions(p, |deck|)
    ensures Positions(Deal(p, toTable), |deck|)
    ensures Deal(Pick(deck, p), toTable) == Pick(deck, Deal(p, toTable))
    decreases |p|, if toTable then 0 else 1
  {
    if p == [] {
    } else if toTable {
      DealPicks(deck, p[1..], false);
      assert Pick(deck, p)[1..] == Pick(deck, p[1..]);
    } else {
      DealPicks(deck, p[1..] + [p[0]], true);
      assert Pick(deck, p)[1..] + [Pick(deck, p)[0]] == Pick(deck, p[1..] + [p[0]]);
    }
  }

  /** Every deck of n cards is rearranged by the same positions, those of the sequential deck's round. */
  lemma RoundPicks(deck: seq<int>, p: seq<int>)
    requires Positions(p, |deck|)
    ensures Positions(Round(p), |deck|) && Round(Pick(deck, p)) == Pick(deck, Round(p))
  {
    hide Deal, Pick, Reverse;
    DealPicks(deck, p, true);
    assert Reverse(Pick(deck, Deal(p, true))) == Pick(deck, Reverse(Deal(p, true)));
  }

  lemma RoundIsFixed(deck: seq<int>)
    ensures var p := Round(Sequential(|deck|));
            Positions(p, |deck|) && Round(deck) == Pick(deck, p)
  {
    RoundPicks(deck, Sequential(|deck|));
    assert Pick(deck, Sequential(|deck|)) == deck;
  }

  lemma {:induction false} DealKeepsCards(deck: seq<int>, toTable: bool)
    ensures multiset(Deal(deck, toTable)) == multiset(deck)
    decreases |deck|, if toTable then 0 else 1
  {
    if deck != [] {
      assert deck == [deck[0]] + deck[1..];
      if toTable { DealKeepsCards(deck[1..], false); } else { DealKeepsCards(deck[1..] + [deck[0]], true); }
    }
  }

  lemma RoundKeepsCards(deck: seq<int>)
    ensures multiset(Round(deck)) == multiset(deck)
  {
    DealKeepsCards(deck, true);
    ReverseKeeps(Deal(deck, true));
  }

  // ----- rounds bring the deck back

  function Rounds(deck: seq<int>, n: nat): (r: seq<int>)
    ensures |r| == |deck|
  {
    if n == 0 then deck else Round(Rounds(deck, n - 1))
  }

  /** n rounds move positions as one: the deck after n rounds follows from the sequential deck's. */
  lemma {:induction false} RoundsPick(deck: seq<int>, p: seq<int>, n: nat)
    requires Positions(p, |deck|)
    ensures Positions(Rounds(p, n), |deck|) && Rounds(Pick(deck, p), n) == Pick(deck, Rounds(p, n))
  {
    if n > 0 {
      RoundsPick(deck, p, n - 1);
      RoundPicks(deck, Rounds(p, n - 1));
    }
  }

  /** x followed n times through p. */
  function Follow(p: seq<int>, n: nat, x: nat): (y: nat)
    requires Positions(p, |p|) && x < |p|
    ensures y < |p|
  {
    if n == 0 then x else Follow(p, n - 1, p[x])
  }

  lemma {:induction false} FollowSum(p: seq<int>, m: nat, n: nat, x: nat)
    requires Positions(p, |p|) && x < |p|
    ensures Follow(p, m + n, x) == Follow(p, n, Follow(p, m, x))
  {
    if m > 0 { FollowSum(p, m - 1, n, p[x]); }
  }

  lemma {:induction false} FollowInjective(p: seq<int>, n: nat, x: nat, y: nat)
    requires Positions(p, |p|) && Distinct(p) && x < |p| && y < |p|
    requires Follow(p, n, x) == Follow(p, n, y)
    ensures x == y
  {
    if n > 0 { FollowInjective(p, n - 1, p[x], p[y]); }
  }

  lemma {:induction false} FollowMultiple(p: seq<int>, d: nat, m: nat, x: nat)
    requires Positions(p, |p|) && x < |p| && Follow(p, d, x) == x
    ensures Follow(p, d * m, x) == x
  {
    if m > 0 {
      FollowMultiple(p, d, m - 1, x);
      assert d * m == d + d * (m - 1);
      FollowSum(p, d, d * (m - 1), x);
    }
  }

  lemma DistinctCount(s: seq<int>, n: nat)
    requires Distinct(s) && Positions(s, n)
    ensures |s| <= n
  {
    forall x | x in s ensures x in Sequential(n) { assert Sequential(n)[x] == x; }
    Pigeonhole(s, Sequential(n));
  }

  /** Some positive number of steps, at most |p|, leads x back to itself. */
  lemma FollowReturns(p: seq<int>, x: nat) returns (d: nat)
    requires Positions(p, |p|) && Distinct(p) && x < |p|
    ensures 1 <= d <= |p| && Follow(p, d, x) == x
  {
    var trail := seq(|p| + 1, k requires 0 <= k => Follow(p, k, x));
    if Distinct(trail) { DistinctCount(trail, |p|); }
    var i, j :| 0 <= i < j < |trail| && trail[i] == trail[j];
    FollowSum(p, j - i, i, x);
    FollowInjective(p, i, Follow(p, j - i, x), x);
    d := j - i;
  }

  function Factorial(n: nat): (f: nat)
    ensures f > 0
  {
    if n == 0 then 1 else n * Factorial(n - 1)
  }

  lemma {:induction false} DividesFactorial(d: nat, n: nat) returns (m: nat)
    requires 1 <= d <= n
    ensures Factorial(n) == d * m
  {
    if d == n {
      m := Factorial(n - 1);
    } else {
      var k := DividesFactorial(d, n - 1);
      m := n * k;
      assert n * (d * k) == d * (n * k);
    }
  }

  lemma {:induction false} OnceInDistinct(s: seq<int>, x: int)
    requires Distinct(s)
    ensures multiset(s)[x] <= 1
  {
    if s != [] {
      assert s == [s[0]] + s[1..];
      OnceInDistinct(s[1..], x);
    }
  }

  lemma SameCardsDistinct(s: seq<int>, t: seq<int>)
    requires Distinct(s) && multiset(t) == multiset(s)
    ensures Distinct(t)
  {
    forall i, j | 0 <= i < j < |t| ensures t[i] != t[j] {
      assert t == t[..i] + [t[i]] + t[i + 1..j] + [t[j]] + t[j + 1..];
      OnceInDistinct(s, t[i]);
    }
  }

  /** After n rounds the sequential deck shows p followed n times, p being one round. */
  lemma {:induction false} RoundsFollow(n: nat, r: nat, x: nat)
    requires x < n
    ensures var p := Round(Sequential(n));
            Positions(p, n) && Rounds(Sequential(n), r)[x] == Follow(p, r, x)
  {
    RoundIsFixed(Sequential(n));
    if r > 0 {
      RoundIsFixed(Rounds(Sequential(n), r - 1));
      RoundsFollow(n, r - 1, Round(Sequential(n))[x]);
    }
  }

  lemma BackAfterFactorial(n: nat)
    ensures Rounds(Sequential(n), Factorial(n)) == Sequential(n)
  {
    var p := Round(Sequential(n));
    RoundIsFixed(Sequential(n));
    RoundKeepsCards(Sequential(n));
    SameCardsDistinct(Sequential(n), p);
    forall x | 0 <= x < n ensures Rounds(Sequential(n), Factorial(n))[x] == x {
      var d := FollowReturns(p, x);
      var m := DividesFactorial(d, n);
      FollowMultiple(p, d, m, x);
      RoundsFollow(n, Factorial(n), x);
    }
  }

  /** r is the least positive number of rounds that brings a deck of n cards back to its order. */
  ghost predicate IsOrder(n: nat, r: nat) {
    r > 0 && Rounds(Sequential(n), r) == Sequential(n) &&
    forall k :: 0 < k < r ==> Rounds(Sequential(n), k) != Sequential(n)
  }

  lemma OrderIsUnique(n: nat, r: nat, r': nat)
    requires IsOrder(n, r) && IsOrder(n, r')
    ensures r == r' <= Factorial(n)
  {
    BackAfterFactorial(n);
  }

  /** The count is right for every deck, not only the sequential one: so many rounds restore it. */
  lemma OrderRestoresAnyDeck(deck: seq<int>, r: nat)
    requires IsOrder(|deck|, r)
    ensures Rounds(deck, r) == deck
  {
    assert Pick(deck, Sequential(|deck|)) == deck;
    RoundsPick(deck, Sequential(|deck|), r);
  }

  // ----- the queue-and-stack form

  /** One card dealt, or kept, when `pile` lies on the table, top first. */
  lemma DealStep(pile: seq<int>, queue: seq<int>, toTable: bool)
    requires queue != []
    ensures toTable ==> Reverse([queue[0]] + pile) + Deal(queue[1..], false) == Reverse(pile) + Deal(queue, true)
    ensures !toTable ==> Reverse(pile) + Deal(queue[1..] + [queue[0]], true) == Reverse(pile) + Deal(queue, false)
  {
    assert ([queue[0]] + pile)[1..] == pile;
    assert Reverse(pile) + ([queue[0]] + Deal(queue[1..], false)) ==
           (Reverse(pile) + [queue[0]]) + Deal(queue[1..], false);
  }

  /** One pass through the deck: the queue and the stack of do_reference_impl. The head of the list
      `table` is the top of the stack. */
  method ReferenceRound(deck: seq<int>) returns (next: seq<int>)
    ensures next == Round(deck) == Passes(deck)
  {
    hide Passes;
    RoundIsPasses(deck);
    var queue, table, toTable := deck, [], true;
    while queue != []
      invariant Reverse(table) + Deal(queue, toTable) == Deal(deck, true)
      decreases |queue|, if toTable then 0 else 1
    {
      DealStep(table, queue, toTable);
      var current := queue[0];
      queue := queue[1..];
      if toTable {
        table := [current] + table;
      } else {
        queue := queue + [current];
      }
      toTable := !toTable;
    }
    assert Reverse(table) + [] == Reverse(table);
    ReverseTwice(table);
    next := PickUp(table);
  }

  method PickUp(pile: seq<int>) returns (queue: seq<int>)
    ensures queue == pile
  {
    var table := pile;
    queue := [];
    while table != []
      invariant queue + table == pile
    {
      queue := queue + [table[0]];
      table := table[1..];
    }
  }

  method ReferenceImpl(n: nat) returns (rounds: nat)
    ensures IsOrder(n, rounds)
  {
    hide Round, Factorial, Passes;
    var input := Sequential(n);
    BackAfterFactorial(n);
    var deck := ReferenceRound(input);
    rounds := 1;
    while deck != input
      invariant rounds >= 1 && deck == Rounds(input, rounds)
      invariant forall k :: 0 < k < rounds ==> Rounds(input, k) != input
      invariant rounds <= Factorial(n)
      decreases Factorial(n) - rounds
    {
      deck := ReferenceRound(deck);
      rounds := rounds + 1;
    }
  }

  // ----- the strided form

  /** Every stride-th card from position `from` on. */
  function Strided(deck: seq<int>, from: nat, stride: nat): (s: seq<int>)
    requires stride > 0
    decreases if from < |deck| then |deck| - from else 0
  {
    if from < |deck| then [deck[from]] + Strided(deck, from + stride, stride) else []
  }

  lemma {:induction false} StridedByOne(deck: seq<int>, from: nat)
    requires from <= |deck|
    ensures Strided(deck, from, 1) == deck[from..]
    decreases |deck| - from
  {
    if from < |deck| { StridedByOne(deck, from + 1); }
  }

  /** One pass over the undealt cards, every stride-th card of `deck` from `start` on, has reached
      `index`. `pile` is the table from its top, `kept` the cards skipped so far: from position
      `skipTo` on they and the cards still to be skipped are what the next pass runs over. */
  ghost predicate PassInv(deck: seq<int>, stride: nat, skipTo: nat, index: nat, pile: seq<int>, kept: seq<int>,
                          take: bool, goal: seq<int>)
    requires stride > 0
  {
    |pile| + |Strided(deck, index, stride)| + |kept| == |deck| &&
    kept + Strided(deck, if take then index + stride else index, 2 * stride) == Strided(deck, skipTo, 2 * stride) &&
    Reverse(pile) + Deal(Strided(deck, index, stride) + kept, take) == goal
  }

  lemma PassStart(deck: seq<int>, stride: nat, start: nat, pile: seq<int>, take: bool)
    requires stride > 0 && |pile| + |Strided(deck, start, stride)| == |deck|
    ensures |pile| < |deck| ==> start < |deck|
    ensures PassInv(deck, stride, if take then start + stride else start, start, pile, [], take,
                    Reverse(pile) + Deal(Strided(deck, start, stride), take))
  {
    assert Strided(deck, start, stride) + [] == Strided(deck, start, stride);
  }

  lemma PassStep(deck: seq<int>, stride: nat, skipTo: nat, index: nat, pile: seq<int>, kept: seq<int>,
                 take: bool, goal: seq<int>)
    requires stride > 0 && index < |deck|
    requires PassInv(deck, stride, skipTo, index, pile, kept, take, goal)
    ensures |pile| < |deck|
    ensures PassInv(deck, stride, skipTo, index + stride,
                    if take then [deck[index]] + pile else pile,
                    if take then kept else kept + [deck[index]], !take, goal)
  {
    var x, rest := deck[index], Strided(deck, index + stride, stride);
    var queue := Strided(deck, index, stride) + kept;
    assert queue == [x] + (rest + kept);
    assert queue[1..] == rest + kept;
    DealStep(pile, queue, take);
    if !take {
      assert queue[1..] + [queue[0]] == rest + (kept + [x]);
      assert Strided(deck, index, 2 * stride) == [x] + Strided(deck, index + 2 * stride, 2 * stride);
      assert kept + ([x] + Strided(deck, index + 2 * stride, 2 * stride)) ==
             (kept + [x]) + Strided(deck, index + 2 * stride, 2 * stride);
    }
  }

  lemma PassDone(deck: seq<int>, stride: nat, skipTo: nat, index: nat, pile: seq<int>, kept: seq<int>,
                 take: bool, goal: seq<int>)
    requires stride > 0 && index >= |deck|
    requires PassInv(deck, stride, skipTo, index, pile, kept, take, goal)
    ensures kept == Strided(deck, skipTo, 2 * stride)
    ensures Reverse(pile) + Deal(kept, take) == goal && |pile| + |kept| == |deck|
  {
    assert [] + kept == kept && kept + [] == kept;
  }

  /** One pass of the inner loop. Every write of a skipped card to table[next] is overwritten later,
      since next + 1 stays the number of undealt cards. */
  method StridedPass(deck: array<int>, table: array<int>, start: nat, stride: nat, next: nat, take: bool)
    returns (start': nat, next': int, take': bool)
    requires deck != table && deck.Length == table.Length && stride > 0 && next < deck.Length
    requires |Strided(deck[..], start, stride)| == next + 1
    modifies table
    ensures deck[..] == old(deck[..])
    ensures -1 <= next' <= next && (next' == next ==> take' && !take)
    ensures |Strided(deck[..], start', 2 * stride)| == next' + 1
    ensures Reverse(table[next' + 1..]) + Deal(Strided(deck[..], start', 2 * stride), take') ==
            Reverse(old(table[next + 1..])) + Deal(Strided(deck[..], start, stride), take)
  {
    hide PassInv, Strided, Deal, Reverse;
    ghost var d, pile, kept := deck[..], table[next + 1..], [];
    ghost var goal := Reverse(pile) + Deal(Strided(d, start, stride), take);
    var index := start;
    start' := if take then start + stride else start;
    next', take' := next, take;
    PassStart(d, stride, start, pile, take);
    while index < deck.Length
      invariant d == deck[..] && index >= start
      invariant -1 <= next' <= next && pile == table[next' + 1..]
      invariant PassInv(d, stride, start', index, pile, kept, take', goal)
      invariant next' == next ==> (index == start && take' == take) || (index == start + stride && take' && !take)
      decreases deck.Length - index
    {
      PassStep(d, stride, start', index, pile, kept, take', goal);
      table[next'] := deck[index];
      assert table[next' + 1..] == pile;
      assert table[next'..] == [d[index]] + pile;
      pile, kept := if take' then [d[index]] + pile else pile, if take' then kept else kept + [d[index]];
      index := index + stride;
      next' := next' - if take' then 1 else 0;
      take' := !take';
    }
    PassDone(d, stride, start', index, pile, kept, take', goal);
  }

  /** One round of do_optimized_impl writes the deck that one queue-and-stack round leaves. */
  method StridedRound(deck: array<int>, table: array<int>)
    requires deck != table && deck.Length == table.Length
    modifies table
    ensures table[..] == Round(deck[..]) == Passes(deck[..]) && deck[..] == old(deck[..])
  {
    hide Passes;
    RoundIsPasses(deck[..]);
    var start, stride, next, take := 0, 1, deck.Length - 1, true;
    ghost var d := deck[..];
    StridedByOne(d, 0);
    assert d[0..] == d && table[deck.Length..] == [];
    assert Reverse([]) + Deal(d, true) == Deal(d, true);
    while next >= 0
      invariant d == deck[..] && stride > 0 && start >= 0 && -1 <= next < deck.Length
      invariant |Strided(d, start, stride)| == next + 1
      invariant Reverse(table[next + 1..]) + Deal(Strided(d, start, stride), take) == Deal(d, true)
      decreases next, if take then 0 else 1
    {
      start, next, take := StridedPass(deck, table, start, stride, next, take);
      stride := 2 * stride;
    }
    assert table[0..] == table[..];
    assert Reverse(table[..]) + [] == Reverse(table[..]);
    ReverseTwice(table[..]);
  }

  /** Compares with the sequential order, stopping at the first difference. */
  method IsSequential(deck: array<int>) returns (equal: bool)
    ensures equal <==> deck[..] == Sequential(deck.Length)
  {
    equal := true;
    var n := 0;
    while n < deck.Length && equal
      invariant 0 <= n <= deck.Length
      invariant equal ==> forall k :: 0 <= k < n ==> deck[k] == k
      invariant !equal ==> exists k :: 0 <= k < deck.Length && deck[k] != k
    {
      equal := deck[n] == n;
      n := n + 1;
    }
    if !equal {
      var k :| 0 <= k < deck.Length && deck[k] != k;
      assert deck[..][k] != Sequential(deck.Length)[k];
    }
  }

  method OptimizedImpl(n: nat) returns (rounds: nat)
    ensures IsOrder(n, rounds)
  {
    hide Round, Factorial, Passes;
    var table, deck := new int[n], new int[n];
    for k := 0 to n
      invariant forall j :: 0 <= j < k ==> deck[j] == j
    {
      deck[k] := k;
    }
    assert deck[..] == Sequential(n);
    BackAfterFactorial(n);
    StridedRound(deck, table);
    table, deck := deck, table;
    rounds := 1;
    var equal := IsSequential(deck);
    while !equal
      invariant fresh(deck) && fresh(table) && deck != table && deck.Length == table.Length == n
      invariant rounds >= 1 && deck[..] == Rounds(Sequential(n), rounds)
      invariant equal <==> deck[..] == Sequential(n)
      invariant forall k :: 0 < k < rounds ==> Rounds(Sequential(n), k) != Sequential(n)
      invariant rounds <= Factorial(n)
      decreases Factorial(n) - rounds
    {
      StridedRound(deck, table);
      table, deck := deck, table;
      rounds := rounds + 1;
      equal := IsSequential(deck);
    }
  }
}
