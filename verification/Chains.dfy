/** The longest chain of words (exercises/chains.cpp): each word starts with the last letter of the
    one before, no word twice. An explicit stack and a counter of open children per path element
    replace the recursion of an exhaustive search. */
module Chains {
  import opened Basics

  type Word = w: string | w != "" && forall k :: 0 <= k < |w| ==> 'a' <= w[k] <= 'z' witness "a"

  datatype Node = Node(first: int, last: int, children: int, word: Word)

  function First(w: Word): (r: int)
    ensures 0 <= r < 26
  {
    w[0] as int - 'a' as int
  }

  function Last(w: Word): (r: int)
    ensures 0 <= r < 26
  {
    w[|w| - 1] as int - 'a' as int
  }

  function MakeNode(w: Word): Node { Node(First(w), Last(w), 0, w) }

  // ----- chains

  predicate Linked(c: seq<Word>) { forall i :: 0 <= i < |c| - 1 ==> First(c[i + 1]) == Last(c[i]) }

  predicate Chain(list: seq<Word>, c: seq<Word>) {
    (forall i :: 0 <= i < |c| ==> c[i] in list) && Distinct(c) && Linked(c)
  }

  predicate ChainFrom(list: seq<Word>, start: Word, c: seq<Word>) { c != [] && c[0] == start && Chain(list, c) }

  ghost predicate Longest(list: seq<Word>, c: seq<Word>) {
    Chain(list, c) && forall d :: Chain(list, d) ==> |d| <= |c|
  }

  /** The same in letters: words of the list, none twice, each starting with the last letter of the one
      before. */
  predicate LetterChain(list: seq<Word>, c: seq<Word>) {
    (forall i :: 0 <= i < |c| ==> c[i] in list) &&
    (forall i, j :: 0 <= i < j < |c| ==> c[i] != c[j]) &&
    forall i :: 0 <= i < |c| - 1 ==> c[i + 1][0] == c[i][|c[i]| - 1]
  }

  lemma LinkedByLetters(c: seq<Word>)
    ensures Linked(c) <==> forall i :: 0 <= i < |c| - 1 ==> c[i + 1][0] == c[i][|c[i]| - 1]
  {
    forall i | 0 <= i < |c| - 1
      ensures First(c[i + 1]) == Last(c[i]) <==> c[i + 1][0] == c[i][|c[i]| - 1]
    {
      SameNumber(c[i + 1], c[i]);
    }
  }

  /** Letters have the same number exactly when they are the same. */
  lemma SameNumber(w: Word, v: Word)
    ensures First(w) == Last(v) <==> w[0] == v[|v| - 1]
  {}

  lemma ChainByLetters(list: seq<Word>, c: seq<Word>)
    ensures Chain(list, c) <==> LetterChain(list, c)
  {
    hide Linked;
    LinkedByLetters(c);
  }

  // ----- the state of the search

  /** trail are the words on the path; segments[k] are the words still on the stack that may follow
      the first k of them. */
  ghost predicate Searching(list: seq<Word>, start: Word, trail: seq<Word>, segments: seq<seq<Word>>) {
    |segments| == |trail| + 1 &&
    (trail != [] ==> ChainFrom(list, start, trail)) &&
    forall k, w :: 0 <= k < |segments| && w in segments[k] ==> ChainFrom(list, start, trail[..k] + [w])
  }

  /** The search still has to come by c. */
  ghost predicate Ahead(trail: seq<Word>, segments: seq<seq<Word>>, c: seq<Word>)
    requires |segments| == |trail| + 1
  {
    exists k, w :: 0 <= k < |segments| && w in segments[k] && trail[..k] + [w] <= c
  }

  /** Every chain from the start word is no longer than the best so far, or still ahead. */
  ghost predicate Exhaustive(list: seq<Word>, start: Word, trail: seq<Word>, segments: seq<seq<Word>>, best: nat)
    requires |segments| == |trail| + 1
  {
    forall c :: ChainFrom(list, start, c) ==> |c| <= best || Ahead(trail, segments, c)
  }

  /** The words that may follow w on the path `trail + [w]`. */
  ghost predicate Followers(list: seq<Word>, trail: seq<Word>, next: seq<Word>)
    requires trail != []
  {
    (forall x :: x in next <==> x in list && First(x) == Last(trail[|trail| - 1]) && x !in trail) && |next| <= |list|
  }

  lemma ChainGrows(list: seq<Word>, start: Word, trail: seq<Word>, w: Word)
    requires ChainFrom(list, start, trail) && w in list && First(w) == Last(trail[|trail| - 1]) && w !in trail
    ensures ChainFrom(list, start, trail + [w])
  {}

  /** The word on top of the stack joins the path, its followers go on the stack. */
  lemma PopSearching(list: seq<Word>, start: Word, trail: seq<Word>, segments: seq<seq<Word>>,
                     s: seq<Word>, w: Word, next: seq<Word>)
    requires Searching(list, start, trail, segments) && segments[|trail|] == s + [w]
    requires Followers(list, trail + [w], next)
    ensures Searching(list, start, trail + [w], segments[|trail| := s] + [next])
  {
    var trail', segments' := trail + [w], segments[|trail| := s] + [next];
    assert w in segments[|trail|] && trail[..|trail|] == trail;
    forall k, x | 0 <= k < |segments'| && x in segments'[k] ensures ChainFrom(list, start, trail'[..k] + [x]) {
      if k <= |trail| {
        assert x in segments[k] && trail'[..k] == trail[..k];
      } else {
        assert trail'[..k] == trail';
        ChainGrows(list, start, trail', x);
      }
    }
  }

  lemma PopExhaustive(list: seq<Word>, start: Word, trail: seq<Word>, segments: seq<seq<Word>>, s: seq<Word>, w: Word,
                      next: seq<Word>, best: nat, best': nat)
    requires Searching(list, start, trail, segments) && segments[|trail|] == s + [w]
    requires Followers(list, trail + [w], next)
    requires Exhaustive(list, start, trail, segments, best) && best' >= best && best' > |trail|
    ensures Exhaustive(list, start, trail + [w], segments[|trail| := s] + [next], best')
  {
    var trail', segments' := trail + [w], segments[|trail| := s] + [next];
    forall c | ChainFrom(list, start, c) && |c| > best' ensures Ahead(trail', segments', c) {
      assert Ahead(trail, segments, c);
      AheadAfterPop(list, start, trail, segments, s, w, next, c);
    }
  }

  lemma AheadAfterPop(list: seq<Word>, start: Word, trail: seq<Word>, segments: seq<seq<Word>>, s: seq<Word>, w: Word,
                      next: seq<Word>, c: seq<Word>)
    requires |segments| == |trail| + 1 && segments[|trail|] == s + [w]
    requires Followers(list, trail + [w], next)
    requires Ahead(trail, segments, c) && ChainFrom(list, start, c) && |c| > |trail| + 1
    ensures Ahead(trail + [w], segments[|trail| := s] + [next], c)
  {
    hide ChainFrom;
    var trail', segments' := trail + [w], segments[|trail| := s] + [next];
    var k, x :| 0 <= k < |segments| && x in segments[k] && trail[..k] + [x] <= c;
    if k == |trail| && x == w {
      var y := c[|trail'|];
      assert trail' == trail[..k] + [w] <= c;
      FollowerOf(list, start, trail', c);
      assert y in segments'[|trail'|] && trail'[..|trail'|] + [y] <= c;
    } else {
      assert x in segments'[k] && trail'[..k] == trail[..k];
    }
  }

  lemma FollowerOf(list: seq<Word>, start: Word, trail: seq<Word>, c: seq<Word>)
    requires ChainFrom(list, start, c) && trail != [] && trail <= c && |trail| < |c|
    ensures c[|trail|] in list && First(c[|trail|]) == Last(trail[|trail| - 1]) && c[|trail|] !in trail
    ensures trail + [c[|trail|]] <= c
  {
    assert First(c[|trail| - 1 + 1]) == Last(c[|trail| - 1]);
  }

  /** A path element without children left leaves the path. */
  lemma Unwind(list: seq<Word>, start: Word, trail: seq<Word>, segments: seq<seq<Word>>, best: nat)
    requires Searching(list, start, trail, segments) && Exhaustive(list, start, trail, segments, best)
    requires trail != [] && segments[|trail|] == []
    ensures Searching(list, start, trail[..|trail| - 1], segments[..|trail|])
    ensures Exhaustive(list, start, trail[..|trail| - 1], segments[..|trail|], best)
  {
    hide ChainFrom, Ahead;
    var trail', segments' := trail[..|trail| - 1], segments[..|trail|];
    forall c | ChainFrom(list, start, c) && |c| > best ensures Ahead(trail', segments', c) {
      assert Ahead(trail, segments, c);
      AheadWithout(trail, segments, c);
    }
    forall k, w | 0 <= k < |segments'| && w in segments'[k] ensures ChainFrom(list, start, trail'[..k] + [w]) {
      assert trail'[..k] == trail[..k] && w in segments[k];
    }
    if trail' != [] { ChainPrefix(list, start, trail); }
  }

  lemma AheadWithout(trail: seq<Word>, segments: seq<seq<Word>>, c: seq<Word>)
    requires |segments| == |trail| + 1 && trail != [] && segments[|trail|] == [] && Ahead(trail, segments, c)
    ensures Ahead(trail[..|trail| - 1], segments[..|trail|], c)
  {
    var trail', segments' := trail[..|trail| - 1], segments[..|trail|];
    var k, w :| 0 <= k < |segments| && w in segments[k] && trail[..k] + [w] <= c;
    assert trail'[..k] == trail[..k] && w in segments'[k];
  }

  lemma ChainPrefix(list: seq<Word>, start: Word, c: seq<Word>)
    requires |c| > 1 && ChainFrom(list, start, c)
    ensures ChainFrom(list, start, c[..|c| - 1])
  {}

  lemma NothingAhead(list: seq<Word>, start: Word, best: nat)
    requires Exhaustive(list, start, [], [[]], best)
    ensures forall c :: ChainFrom(list, start, c) ==> |c| <= best
  {
    forall c | ChainFrom(list, start, c) ensures |c| <= best {
      assert !Ahead([], [[]], c);
    }
  }

  // ----- why it ends

  function Pow(b: nat, e: nat): (p: nat)
    ensures b > 0 ==> p > 0
  {
    if e == 0 then 1 else b * Pow(b, e - 1)
  }

  /** Each word on the stack stands for at most (|list| + 1) ^ (|list| - depth) visits. */
  function Work(n: nat, segments: seq<seq<Word>>): nat
    requires |segments| <= n + 1
  {
    if segments == [] then 0
    else Work(n, segments[..|segments| - 1]) +
         |segments[|segments| - 1]| * Pow(n + 1, n + 1 - |segments|)
  }

  lemma WorkSnoc(n: nat, front: seq<seq<Word>>, s: seq<Word>)
    requires |front| <= n
    ensures Work(n, front + [s]) == Work(n, front) + |s| * Pow(n + 1, n - |front|)
  {
    assert (front + [s])[..|front|] == front;
  }

  /** One item of weight (n + 1) p outweighs at most n items of weight p. */
  lemma Outweighs(count: nat, next: nat, n: nat, p: nat)
    requires next <= n && p > 0
    ensures count * ((n + 1) * p) + next * p < (count + 1) * ((n + 1) * p)
  {
    var q := (n + 1) * p;
    MulAtMost(next, n, p);
    assert q == n * p + p;
    assert (count + 1) * q == count * q + q;
  }

  lemma WorkShrinks(n: nat, front: seq<seq<Word>>, s: seq<Word>, w: Word, next: seq<Word>)
    requires |front| < n && |next| <= n
    ensures Work(n, front + [s, next]) < Work(n, front + [s + [w]])
  {
    var p := Pow(n + 1, n - |front| - 1);
    assert Pow(n + 1, n - |front|) == (n + 1) * p;
    assert front + [s, next] == front + [s] + [next];
    WorkSnoc(n, front + [s], next);
    WorkSnoc(n, front, s);
    WorkSnoc(n, front, s + [w]);
    Outweighs(|s|, |next|, n, p);
  }

  lemma WorkUnwinds(n: nat, segments: seq<seq<Word>>)
    requires 0 < |segments| <= n + 1 && segments[|segments| - 1] == []
    ensures Work(n, segments[..|segments| - 1]) == Work(n, segments)
  {}

  // ----- the data structures

  function Words(path: seq<Node>): (r: seq<Word>)
    ensures |r| == |path| && forall i :: 0 <= i < |path| ==> r[i] == path[i].word
  {
    if path == [] then [] else Words(path[..|path| - 1]) + [path[|path| - 1].word]
  }

  function Nodes(words: seq<Word>): (r: seq<Node>)
    ensures |r| == |words| && forall i :: 0 <= i < |words| ==> r[i] == MakeNode(words[i])
  {
    if words == [] then [] else Nodes(words[..|words| - 1]) + [MakeNode(words[|words| - 1])]
  }

  function Flatten(segments: seq<seq<Word>>): seq<Word> {
    if segments == [] then [] else Flatten(segments[..|segments| - 1]) + segments[|segments| - 1]
  }

  /** Each path element carries its letters, and counts its children: those on the stack, and the one
      that follows it on the path. */
  ghost predicate Counted(path: seq<Node>, segments: seq<seq<Word>>) {
    |segments| == |path| + 1 &&
    forall k :: 0 <= k < |path| ==>
      path[k] == MakeNode(path[k].word).(children := |segments[k + 1]| + if k < |path| - 1 then 1 else 0)
  }

  /** nodes[f]: the words of the list that start with letter f. */
  ghost predicate IsBucket(list: seq<Word>, f: int, bucket: seq<Node>) {
    (forall i :: 0 <= i < |bucket| ==> bucket[i] == MakeNode(bucket[i].word)) &&
    (forall w :: w in Words(bucket) <==> w in list && First(w) == f) && |bucket| <= |list|
  }

  method FillBuckets(list: seq<Word>) returns (buckets: seq<seq<Node>>)
    ensures |buckets| == 26 && forall f :: 0 <= f < 26 ==> IsBucket(list, f, buckets[f])
  {
    hide IsBucket;
    buckets := seq(26, _ => []);
    forall f | 0 <= f < 26 ensures IsBucket(list[..0], f, buckets[f]) { NoBucket(f); }
    for n := 0 to |list|
      invariant |buckets| == 26 && forall f :: 0 <= f < 26 ==> IsBucket(list[..n], f, buckets[f])
    {
      var node := MakeNode(list[n]);
      ghost var before := buckets;
      buckets := buckets[node.first := buckets[node.first] + [node]];
      assert list[..n + 1] == list[..n] + [list[n]];
      forall f | 0 <= f < 26 ensures IsBucket(list[..n + 1], f, buckets[f]) {
        BucketGrows(list[..n], f, before[f], list[n]);
      }
    }
    assert list[..|list|] == list;
  }

  lemma NoBucket(f: int)
    ensures IsBucket([], f, [])
  {}

  lemma BucketGrows(list: seq<Word>, f: int, bucket: seq<Node>, w: Word)
    requires IsBucket(list, f, bucket)
    ensures IsBucket(list + [w], f, if First(w) == f then bucket + [MakeNode(w)] else bucket)
  {
    hide Words;
    WordsSnoc(bucket, MakeNode(w));
    InSnoc(list, w);
    InSnoc(Words(bucket), w);
  }

  lemma InSnoc(words: seq<Word>, w: Word)
    ensures forall x :: x in words + [w] <==> x in words || x == w
  {}

  lemma WordsSnoc(path: seq<Node>, node: Node)
    ensures Words(path + [node]) == Words(path) + [node.word]
  {
    assert (path + [node])[..|path|] == path;
  }

  lemma NodesSnoc(words: seq<Word>, w: Word)
    ensures Nodes(words + [w]) == Nodes(words) + [MakeNode(w)]
  {
    assert (words + [w])[..|words|] == words;
  }

  method Find(path: seq<Node>, word: Word) returns (found: bool)
    ensures found <==> word in Words(path)
  {
    found := false;
    for i := 0 to |path|
      invariant found <==> exists k :: 0 <= k < i && path[k].word == word
    {
      if path[i].word == word { found := true; }
    }
    if found {
      var k :| 0 <= k < |path| && path[k].word == word;
      assert Words(path)[k] == word;
    }
  }

  /** Puts the followers of the last path element on the stack and counts them as its children. */
  method Expand(list: seq<Word>, bucket: seq<Node>, path: seq<Node>, stack: seq<Node>)
    returns (path': seq<Node>, stack': seq<Node>, ghost next: seq<Word>)
    requires path != [] && path[|path| - 1] == MakeNode(path[|path| - 1].word)
    requires IsBucket(list, path[|path| - 1].last, bucket)
    ensures Followers(list, Words(path), next)
    ensures stack' == stack + Nodes(next)
    ensures path' == path[|path| - 1 := path[|path| - 1].(children := |next|)]
  {
    hide Words, Nodes, Sifted;
    next := [];
    path', stack' := path, stack;
    NothingSifted(Words(bucket), Words(path));
    assert stack + Nodes([]) == stack;
    var back := |path| - 1;
    for i := 0 to |bucket|
      invariant path' == path[back := path[back].(children := |next|)]
      invariant stack' == stack + Nodes(next) && |next| <= i
      invariant Sifted(Words(bucket), i, Words(path), next)
    {
      SiftNext(Words(bucket), i, Words(path), next);
      SameWords(path, path');
      var found := Find(path', bucket[i].word);
      if !found {
        path' := path'[back := path'[back].(children := path'[back].children + 1)];
        stack' := stack' + [bucket[i]];
        NodesSnoc(next, bucket[i].word);
        next := next + [bucket[i].word];
      }
    }
    SiftedFollowers(list, bucket, path, next);
  }

  /** next are the words among the first i that are not on the trail. */
  ghost predicate Sifted(words: seq<Word>, i: nat, trail: seq<Word>, next: seq<Word>)
    requires i <= |words|
  {
    forall x :: x in next <==> x !in trail && x in words[..i]
  }

  lemma NothingSifted(words: seq<Word>, trail: seq<Word>)
    ensures Sifted(words, 0, trail, [])
  {}

  lemma SiftNext(words: seq<Word>, i: nat, trail: seq<Word>, next: seq<Word>)
    requires i < |words| && Sifted(words, i, trail, next)
    ensures Sifted(words, i + 1, trail, if words[i] in trail then next else next + [words[i]])
  {
    assert words[..i + 1] == words[..i] + [words[i]];
  }

  lemma SameWords(path: seq<Node>, path': seq<Node>)
    requires |path| == |path'| && forall k :: 0 <= k < |path| ==> path[k].word == path'[k].word
    ensures Words(path) == Words(path')
  {}

  lemma SiftedFollowers(list: seq<Word>, bucket: seq<Node>, path: seq<Node>, next: seq<Word>)
    requires path != [] && path[|path| - 1] == MakeNode(path[|path| - 1].word)
    requires IsBucket(list, path[|path| - 1].last, bucket)
    requires Sifted(Words(bucket), |bucket|, Words(path), next) && |next| <= |bucket|
    ensures Followers(list, Words(path), next)
  {
    assert Words(bucket)[..|bucket|] == Words(bucket);
  }

  // ----- the search

  ghost predicate State(list: seq<Word>, start: Word, path: seq<Node>, segments: seq<seq<Word>>,
                        stack: seq<Node>, best: nat) {
    Searching(list, start, Words(path), segments) && Exhaustive(list, start, Words(path), segments, best) &&
    Counted(path, segments) && stack == Nodes(Flatten(segments)) && |segments| <= |list| + 1
  }

  lemma Top(path: seq<Node>, segments: seq<seq<Word>>)
    requires |segments| == |path| + 1 && Flatten(segments) != [] && (path != [] ==> segments[|path|] != [])
    ensures var s := segments[|path|];
            s != [] && Flatten(segments)[|Flatten(segments)| - 1] == s[|s| - 1] &&
            Flatten(segments[|path| := s[..|s| - 1]]) == Flatten(segments)[..|Flatten(segments)| - 1]
  {
    if path == [] { assert segments[..0] == []; }
    var s := segments[|path|];
    assert segments[|path| := s[..|s| - 1]][..|path|] == segments[..|path|];
  }

  lemma FlattenSnoc(segments: seq<seq<Word>>, next: seq<Word>)
    ensures Flatten(segments + [next]) == Flatten(segments) + next
  {
    assert (segments + [next])[..|segments|] == segments;
  }

  lemma {:induction false} NodesConcat(s: seq<Word>, t: seq<Word>)
    ensures Nodes(s + t) == Nodes(s) + Nodes(t)
  {}

  lemma CountedPop(path: seq<Node>, segments: seq<seq<Word>>, s: seq<Word>, w: Word, next: seq<Word>)
    requires Counted(path, segments) && segments[|path|] == s + [w]
    ensures Counted(path + [MakeNode(w).(children := |next|)], segments[|path| := s] + [next])
  {}

  lemma CountedUnwind(path: seq<Node>, segments: seq<seq<Word>>)
    requires Counted(path, segments) && path != [] && path[|path| - 1].children == 0
    ensures segments[|path|] == []
    ensures |path| > 1 ==>
      Counted(path[..|path| - 1][|path| - 2 := path[|path| - 2].(children := path[|path| - 2].children - 1)],
              segments[..|path|])
    ensures |path| == 1 ==> Counted([], segments[..1])
  {}

  /** What one round of the search does: `current` leaves the stack and joins the path, its followers
      are stacked. */
  lemma PopState(list: seq<Word>, start: Word, path: seq<Node>, segments: seq<seq<Word>>, stack: seq<Node>, best: nat,
                 next: seq<Word>, best': nat)
    requires State(list, start, path, segments, stack, best) && stack != []
    requires path != [] ==> segments[|path|] != []
    requires Followers(list, Words(path) + [stack[|stack| - 1].word], next) && best' >= best && best' > |path|
    ensures segments[|path|] != []
    ensures var s, current := segments[|path|], stack[|stack| - 1];
            var segments' := segments[|path| := s[..|s| - 1]] + [next];
            current == MakeNode(current.word) &&
            State(list, start, path + [current.(children := |next|)], segments',
                  stack[..|stack| - 1] + Nodes(next), best') &&
            Work(|list|, segments') < Work(|list|, segments) &&
            Chain(list, Words(path) + [current.word])
  {
    hide Searching, Exhaustive, Counted, Followers, Work, Flatten, Nodes, Words, ChainFrom, Chain;
    SearchingSize(list, start, Words(path), segments);
    PopStack(path, segments, stack, next);
    var s, current := segments[|path|], stack[|stack| - 1];
    var w, rest := s[|s| - 1], s[..|s| - 1];
    SplitLast(s);
    WordsSnoc(path, current.(children := |next|));
    PopSearching(list, start, Words(path), segments, rest, w, next);
    PopExhaustive(list, start, Words(path), segments, rest, w, next, best, best');
    CountedPop(path, segments, rest, w, next);
    SearchingChain(list, start, Words(path), segments, w);
    FollowersSize(list, Words(path) + [w], next);
    PopWork(|list|, segments, next);
  }

  lemma SplitLast(s: seq<Word>)
    requires s != []
    ensures s == s[..|s| - 1] + [s[|s| - 1]] && s[|s| - 1] in s
  {}

  lemma PopStack(path: seq<Node>, segments: seq<seq<Word>>, stack: seq<Node>, next: seq<Word>)
    requires |segments| == |path| + 1 && (path != [] ==> segments[|path|] != [])
    requires stack == Nodes(Flatten(segments)) && stack != []
    ensures segments[|path|] != []
    ensures var s := segments[|path|];
            stack[|stack| - 1] == MakeNode(s[|s| - 1]) &&
            stack[..|stack| - 1] + Nodes(next) == Nodes(Flatten(segments[|path| := s[..|s| - 1]] + [next]))
  {
    hide Flatten, Nodes;
    Top(path, segments);
    var s, all := segments[|path|], Flatten(segments);
    var w, rest := s[|s| - 1], s[..|s| - 1];
    NodesSnoc(all[..|all| - 1], w);
    assert all == all[..|all| - 1] + [w];
    FlattenSnoc(segments[|path| := rest], next);
    NodesConcat(Flatten(segments[|path| := rest]), next);
  }

  lemma PopWork(n: nat, segments: seq<seq<Word>>, next: seq<Word>)
    requires 0 < |segments| <= n && |next| <= n && segments[|segments| - 1] != []
    ensures var s := segments[|segments| - 1];
            Work(n, segments[|segments| - 1 := s[..|s| - 1]] + [next]) < Work(n, segments)
  {
    hide Work;
    var front, s := segments[..|segments| - 1], segments[|segments| - 1];
    var w, rest := s[|s| - 1], s[..|s| - 1];
    assert s == rest + [w] && segments == front + [rest + [w]];
    assert segments[|segments| - 1 := rest] + [next] == front + [rest, next];
    WorkShrinks(n, front, rest, w, next);
  }

  lemma SearchingSize(list: seq<Word>, start: Word, trail: seq<Word>, segments: seq<seq<Word>>)
    requires Searching(list, start, trail, segments)
    ensures |segments| == |trail| + 1
  {}

  lemma FollowersSize(list: seq<Word>, trail: seq<Word>, next: seq<Word>)
    requires trail != [] && Followers(list, trail, next)
    ensures |next| <= |list|
  {}

  lemma SearchingChain(list: seq<Word>, start: Word, trail: seq<Word>, segments: seq<seq<Word>>, w: Word)
    requires Searching(list, start, trail, segments) && w in segments[|trail|]
    ensures Chain(list, trail + [w]) && |trail| + 1 <= |list|
  {
    assert trail[..|trail|] == trail;
    Pigeonhole(trail + [w], list);
  }

  lemma UnwindState(list: seq<Word>, start: Word, path: seq<Node>, segments: seq<seq<Word>>,
                    stack: seq<Node>, best: nat)
    requires State(list, start, path, segments, stack, best) && path != [] && path[|path| - 1].children == 0
    ensures var front := path[..|path| - 1];
            var path' := if front == [] then front
                         else front[|front| - 1 := front[|front| - 1].(children := front[|front| - 1].children - 1)];
            State(list, start, path', segments[..|path|], stack, best) &&
            Work(|list|, segments[..|path|]) == Work(|list|, segments)
  {
    hide Searching, Exhaustive, Counted, Work, Nodes, Words;
    SearchingSize(list, start, Words(path), segments);
    CountedUnwind(path, segments);
    Unwind(list, start, Words(path), segments, best);
    WorkUnwinds(|list|, segments);
    var front := path[..|path| - 1];
    assert Words(front) == Words(path)[..|path| - 1] by {
      assert path == front + [path[|path| - 1]];
      WordsSnoc(front, path[|path| - 1]);
    }
    if front != [] {
      SameWords(front, front[|front| - 1 := front[|front| - 1].(children := front[|front| - 1].children - 1)]);
    }
    assert Flatten(segments) == Flatten(segments[..|path|]) + [];
  }

  lemma StateStart(list: seq<Word>, start: Word, best: nat)
    requires start in list
    ensures State(list, start, [], [[start]], [MakeNode(start)], best)
  {
    hide Searching, Exhaustive, Nodes;
    assert Flatten([[start]]) == [start] by { assert [[start]][..0] == []; }
    NodesSnoc([], start);
    assert [] + [start] == [start] && Nodes([]) + [MakeNode(start)] == [MakeNode(start)];
    StartSearching(list, start);
    StartExhaustive(list, start, best);
  }

  lemma StartSearching(list: seq<Word>, start: Word)
    requires start in list
    ensures Searching(list, start, [], [[start]])
  {
    forall k, w | 0 <= k < 1 && w in [[start]][k] ensures ChainFrom(list, start, [][..k] + [w]) {
      assert [][..k] + [w] == [start];
    }
  }

  lemma StartExhaustive(list: seq<Word>, start: Word, best: nat)
    ensures Exhaustive(list, start, [], [[start]], best)
  {
    forall c | ChainFrom(list, start, c) ensures Ahead([], [[start]], c) {
      var segments: seq<seq<Word>> := [[start]];
      assert start in segments[0] && [][..0] + [start] <= c;
    }
  }

  lemma StateEnd(list: seq<Word>, start: Word, path: seq<Node>, segments: seq<seq<Word>>, best: nat)
    requires State(list, start, path, segments, [], best) && (path != [] ==> segments[|path|] != [])
    ensures forall c :: ChainFrom(list, start, c) ==> |c| <= best
  {
    hide ChainFrom, Exhaustive;
    assert Flatten(segments) == [];
    assert path == [];
    assert segments[..0] == [] && segments == [segments[0]];
    assert segments == [[]];
    assert Words(path) == [];
    NothingAhead(list, start, best);
  }

  lemma CountedLast(path: seq<Node>, segments: seq<seq<Word>>)
    requires Counted(path, segments) && path != [] && path[|path| - 1].children != 0
    ensures segments[|path|] != []
  {}

  /** All chains from one start word; `answer` is the longest chain so far. */
  method SearchFrom(list: seq<Word>, buckets: seq<seq<Node>>, start: Word, answer: seq<Node>)
    returns (answer': seq<Node>)
    requires start in list && Chain(list, Words(answer))
    requires |buckets| == 26 && forall f :: 0 <= f < 26 ==> IsBucket(list, f, buckets[f])
    ensures Chain(list, Words(answer')) && |answer'| >= |answer|
    ensures forall c :: ChainFrom(list, start, c) ==> |c| <= |answer'|
  {
    hide Searching, Exhaustive, Counted, Followers, Work, Flatten, Nodes, Words, ChainFrom, Chain, IsBucket;
    answer' := answer;
    var stack, path := [MakeNode(start)], [];
    ghost var segments := [[start]];
    StateStart(list, start, |answer'|);
    while stack != []
      invariant State(list, start, path, segments, stack, |answer'|)
      invariant |segments| == |path| + 1 && (path != [] ==> segments[|path|] != [])
      invariant Chain(list, Words(answer')) && |answer'| >= |answer|
      decreases Work(|list|, segments)
    {
      var current := stack[|stack| - 1];
      ghost var path0, stack0, best0 := path, stack, |answer'|;
      TopIsNode(path, segments, stack);
      stack := stack[..|stack| - 1];
      path := path + [current];
      if |path| > |answer'| { answer' := path; }
      ghost var next;
      WordsSnoc(path0, current);
      path, stack, next := Expand(list, buckets[current.last], path, stack);
      PopState(list, start, path0, segments, stack0, best0, next, |answer'|);
      ghost var s := segments[|path0|];
      assert path == path0 + [current.(children := |next|)];
      segments := segments[|path0| := s[..|s| - 1]] + [next];
      ghost var work := Work(|list|, segments);
      while path != [] && path[|path| - 1].children == 0
        invariant State(list, start, path, segments, stack, |answer'|) && |segments| == |path| + 1
        invariant Work(|list|, segments) == work
        decreases |path|
      {
        UnwindState(list, start, path, segments, stack, |answer'|);
        segments := segments[..|path|];
        path := path[..|path| - 1];
        if path != [] {
          path := path[|path| - 1 := path[|path| - 1].(children := path[|path| - 1].children - 1)];
        }
      }
      if path != [] { CountedLast(path, segments); }
    }
    StateEnd(list, start, path, segments, |answer'|);
  }

  lemma TopIsNode(path: seq<Node>, segments: seq<seq<Word>>, stack: seq<Node>)
    requires stack == Nodes(Flatten(segments)) && stack != []
    ensures stack[|stack| - 1] == MakeNode(stack[|stack| - 1].word)
  {}

  function Render(path: seq<Node>): string {
    if path == [] then "" else Render(path[..|path| - 1]) + path[|path| - 1].word + ", "
  }

  /** Where the i-th word of a listing starts: after i words, each with a comma and a blank. */
  function Offset(words: seq<string>, i: nat): nat
    requires i <= |words|
  {
    if i == 0 then 0 else Offset(words, i - 1) + |words[i - 1]| + 2
  }

  /** The string s lists the words in order, each followed by a comma and a blank, and nothing else. */
  predicate Lists(s: string, words: seq<string>) {
    |s| == Offset(words, |words|) &&
    forall i :: 0 <= i < |words| ==> ListsAt(s, words, i)
  }

  predicate ListsAt(s: string, words: seq<string>, i: nat)
    requires i < |words|
  {
    var o, w := Offset(words, i), words[i];
    o + |w| + 2 <= |s| && s[o..o + |w|] == w && s[o + |w|] == ',' && s[o + |w| + 1] == ' '
  }

  lemma {:induction false} OffsetSnoc(words: seq<string>, w: string, i: nat)
    requires i <= |words|
    ensures Offset(words + [w], i) == Offset(words, i)
  {
    if i > 0 { OffsetSnoc(words, w, i - 1); }
  }

  /** One more word, a comma and a blank. */
  lemma ListsSnoc(s: string, words: seq<string>, w: string)
    requires Lists(s, words)
    ensures Lists(s + w + ", ", words + [w])
  {
    var n, s', words' := |words|, s + w + ", ", words + [w];
    OffsetSnoc(words, w, n);
    assert Offset(words', n + 1) == Offset(words', n) + |w| + 2;
    forall i | 0 <= i < n + 1 ensures ListsAt(s', words', i) {
      hide Offset;
      OffsetSnoc(words, w, if i < n then i else n);
      if i < n {
        assert ListsAt(s, words, i);
        var o := Offset(words, i);
        assert s'[o..o + |words[i]|] == s[o..o + |words[i]|];
      } else {
        assert s'[|s|..|s| + |w|] == w;
      }
    }
  }

  lemma {:induction false} RenderLists(path: seq<Node>)
    ensures Lists(Render(path), Words(path))
  {
    if path != [] {
      var n := |path| - 1;
      RenderLists(path[..n]);
      ListsSnoc(Render(path[..n]), Words(path[..n]), path[n].word);
      assert Words(path) == Words(path[..n]) + [path[n].word];
    }
  }

  /** The words of a chain no other chain of the list exceeds in length, each followed by a comma. */
  method Solve(list: seq<Word>) returns (result: string, answer: seq<Node>)
    ensures Longest(list, Words(answer)) && result == Render(answer)
    ensures LetterChain(list, Words(answer)) && Lists(result, Words(answer))
    ensures forall c :: LetterChain(list, c) ==> |c| <= |answer|
  {
    hide ChainFrom, Chain, Longest, Words, IsBucket, LetterChain, Lists;
    NoChain(list);
    var buckets := FillBuckets(list);
    answer := [];
    for n := 0 to |list|
      invariant Chain(list, Words(answer))
      invariant forall m, c :: 0 <= m < n && ChainFrom(list, list[m], c) ==> |c| <= |answer|
    {
      answer := SearchFrom(list, buckets, list[n], answer);
    }
    LongestOfAll(list, Words(answer));
    result := "";
    for i := 0 to |answer|
      invariant result == Render(answer[..i])
    {
      assert answer[..i + 1][..i] == answer[..i];
      result := result + answer[i].word;
      result := result + ", ";
    }
    assert answer[..|answer|] == answer;
    RenderLists(answer);
    LongestByLetters(list, Words(answer));
  }

  lemma LongestByLetters(list: seq<Word>, best: seq<Word>)
    requires Longest(list, best)
    ensures LetterChain(list, best) && forall c :: LetterChain(list, c) ==> |c| <= |best|
  {
    hide Chain, LetterChain;
    ChainByLetters(list, best);
    forall c | LetterChain(list, c) ensures |c| <= |best| { ChainByLetters(list, c); }
  }

  lemma NoChain(list: seq<Word>)
    ensures Words([]) == [] && Chain(list, [])
  {}

  lemma LongestOfAll(list: seq<Word>, best: seq<Word>)
    requires Chain(list, best)
    requires forall m, c :: 0 <= m < |list| && ChainFrom(list, list[m], c) ==> |c| <= |best|
    ensures Longest(list, best)
  {
    hide ChainFrom, Chain;
    forall d | Chain(list, d) ensures |d| <= |best| {
      if d != [] { var m := StartOf(list, d); }
    }
  }

  lemma StartOf(list: seq<Word>, d: seq<Word>) returns (m: nat)
    requires Chain(list, d) && d != []
    ensures m < |list| && ChainFrom(list, list[m], d)
  {
    assert d[0] in list;
    m :| 0 <= m < |list| && list[m] == d[0];
  }
}
