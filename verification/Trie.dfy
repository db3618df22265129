/** The trie of exercises/compounds.cpp: insertion, lookup, the search for compound words, and the
    listing of all words. A node is an index into the array of nodes ever allocated; the children of
    a node are the 26 consecutive nodes that growing it allocates. */
module Trie {
  import opened Basics

  type Letter = c: char | 'a' <= c <= 'z' witness 'a'

  type Word = seq<Letter>

  function Index(c: Letter): (n: nat)
    ensures n < 26
  {
    c as int - 'a' as int
  }

  function LetterAt(n: nat): (c: Letter)
    requires n < 26
    ensures Index(c) == n
  {
    (n + 'a' as int) as char
  }

  datatype Children = Leaf | Block(base: nat)

  datatype Node = Node(children: Children, isWord: bool)

  // ----- what the nodes mean

  function Child(nodes: seq<Node>, n: nat, k: nat): nat
    requires n < |nodes| && nodes[n].children.Block?
  {
    nodes[n].children.base + k
  }

  /** paths[n] is the word that leads to node n; every node is where its path says. */
  ghost predicate Shaped(nodes: seq<Node>, paths: seq<Word>) {
    |nodes| == |paths| > 0 && paths[0] == [] && !nodes[0].isWord &&
    (forall n, k :: 0 <= n < |nodes| && nodes[n].children.Block? && 0 <= k < 26 ==> ChildOk(nodes, paths, n, k)) &&
    (forall n, m :: 0 <= n < m < |nodes| ==> paths[n] != paths[m]) &&
    (forall n :: 0 < n < |nodes| ==> HasParent(nodes, paths, n))
  }

  ghost predicate ChildOk(nodes: seq<Node>, paths: seq<Word>, n: nat, k: nat)
    requires n < |nodes| == |paths| && nodes[n].children.Block? && k < 26
  {
    n < Child(nodes, n, k) < |nodes| && paths[Child(nodes, n, k)] == paths[n] + [LetterAt(k)]
  }

  ghost predicate HasParent(nodes: seq<Node>, paths: seq<Word>, n: nat)
    requires n < |nodes| == |paths|
  {
    paths[n] != [] &&
    exists p :: 0 <= p < |nodes| && nodes[p].children.Block? && paths[p] == paths[n][..|paths[n]| - 1]
  }

  /** The words inserted: the paths of the marked nodes. */
  ghost function Words(nodes: seq<Node>, paths: seq<Word>): set<Word>
    requires |nodes| == |paths|
  {
    set n | 0 <= n < |nodes| && nodes[n].isWord :: paths[n]
  }

  lemma IsWordAt(nodes: seq<Node>, paths: seq<Word>, n: nat)
    requires Shaped(nodes, paths) && n < |nodes|
    ensures paths[n] in Words(nodes, paths) <==> nodes[n].isWord
  {}

  lemma NoEmptyWord(nodes: seq<Node>, paths: seq<Word>)
    requires Shaped(nodes, paths)
    ensures [] !in Words(nodes, paths)
  {
    IsWordAt(nodes, paths, 0);
  }

  /** Below a node without children there is nothing. */
  lemma {:induction false} NothingBelow(nodes: seq<Node>, paths: seq<Word>, n: nat, m: nat)
    requires Shaped(nodes, paths) && n < |nodes| && m < |nodes| && nodes[n].children.Leaf?
    ensures !(paths[n] < paths[m])
    decreases |paths[m]|
  {
    if m > 0 && |paths[n]| < |paths[m]| {
      assert HasParent(nodes, paths, m);
      var p :| 0 <= p < |nodes| && nodes[p].children.Block? && paths[p] == paths[m][..|paths[m]| - 1];
      NothingBelow(nodes, paths, n, p);
      assert n != p;
    }
  }

  lemma NoWordBelow(nodes: seq<Node>, paths: seq<Word>, n: nat)
    requires Shaped(nodes, paths) && n < |nodes| && nodes[n].children.Leaf?
    ensures forall w :: w in Words(nodes, paths) ==> !(paths[n] < w)
  {
    forall m | 0 <= m < |nodes| ensures !(paths[n] < paths[m]) { NothingBelow(nodes, paths, n, m); }
  }

  // ----- growing

  function Grown(nodes: seq<Node>, n: nat): seq<Node>
    requires n < |nodes|
  {
    nodes[n := nodes[n].(children := Block(|nodes|))] + seq(26, _ => Node(Leaf, false))
  }

  ghost function GrownPaths(paths: seq<Word>, n: nat): seq<Word>
    requires n < |paths|
  {
    paths + seq(26, k requires 0 <= k < 26 => paths[n] + [LetterAt(k)])
  }

  lemma GrownShaped(nodes: seq<Node>, paths: seq<Word>, n: nat)
    requires Shaped(nodes, paths) && n < |nodes| && nodes[n].children.Leaf?
    ensures Shaped(Grown(nodes, n), GrownPaths(paths, n))
    ensures Words(Grown(nodes, n), GrownPaths(paths, n)) == Words(nodes, paths)
  {
    var nodes', paths' := Grown(nodes, n), GrownPaths(paths, n);
    GrownChildren(nodes, paths, n);
    GrownDistinct(nodes, paths, n);
    forall m | 0 < m < |nodes'| ensures HasParent(nodes', paths', m) { GrownParent(nodes, paths, n, m); }
    assert forall m :: 0 <= m < |nodes| ==> nodes'[m].isWord == nodes[m].isWord && paths'[m] == paths[m];
  }

  lemma GrownChildren(nodes: seq<Node>, paths: seq<Word>, n: nat)
    requires Shaped(nodes, paths) && n < |nodes| && nodes[n].children.Leaf?
    ensures forall m, k :: 0 <= m < |Grown(nodes, n)| && Grown(nodes, n)[m].children.Block? && 0 <= k < 26 ==>
              ChildOk(Grown(nodes, n), GrownPaths(paths, n), m, k)
  {
    var nodes', paths' := Grown(nodes, n), GrownPaths(paths, n);
    forall m, k | 0 <= m < |nodes'| && nodes'[m].children.Block? && 0 <= k < 26
      ensures ChildOk(nodes', paths', m, k)
    {
      assert m < |nodes|;
      if m != n {
        assert ChildOk(nodes, paths, m, k);
      } else {
        assert Child(nodes', n, k) == |nodes| + k;
      }
    }
  }

  lemma GrownDistinct(nodes: seq<Node>, paths: seq<Word>, n: nat)
    requires Shaped(nodes, paths) && n < |nodes| && nodes[n].children.Leaf?
    ensures var paths' := GrownPaths(paths, n);
            forall i, m :: 0 <= i < m < |paths'| ==> paths'[i] != paths'[m]
  {
    var paths' := GrownPaths(paths, n);
    forall i, m | 0 <= i < m < |paths'| ensures paths'[i] != paths'[m] {
      if m >= |paths| {
        var k := m - |paths|;
        assert paths'[m] == paths[n] + [LetterAt(k)];
        if i < |paths| {
          NothingBelow(nodes, paths, n, i);
        } else {
          assert paths'[i][|paths[n]|] == LetterAt(i - |paths|) && paths'[m][|paths[n]|] == LetterAt(k);
        }
      }
    }
  }

  lemma GrownParent(nodes: seq<Node>, paths: seq<Word>, n: nat, m: nat)
    requires Shaped(nodes, paths) && n < |nodes| && nodes[n].children.Leaf? && 0 < m < |Grown(nodes, n)|
    ensures HasParent(Grown(nodes, n), GrownPaths(paths, n), m)
  {
    var nodes', paths' := Grown(nodes, n), GrownPaths(paths, n);
    if m < |nodes| {
      assert HasParent(nodes, paths, m);
      var p :| 0 <= p < |nodes| && nodes[p].children.Block? && paths[p] == paths[m][..|paths[m]| - 1];
      assert nodes'[p].children.Block? && paths'[p] == paths'[m][..|paths'[m]| - 1];
    } else {
      assert paths'[m][..|paths'[m]| - 1] == paths[n];
      assert nodes'[n].children.Block? && paths'[n] == paths[n];
    }
  }

  lemma Marked(nodes: seq<Node>, paths: seq<Word>, n: nat)
    requires Shaped(nodes, paths) && 0 < n < |nodes|
    ensures Shaped(nodes[n := nodes[n].(isWord := true)], paths)
    ensures Words(nodes[n := nodes[n].(isWord := true)], paths) == Words(nodes, paths) + {paths[n]}
  {
    var nodes' := nodes[n := nodes[n].(isWord := true)];
    forall m, k | 0 <= m < |nodes'| && nodes'[m].children.Block? && 0 <= k < 26 ensures ChildOk(nodes', paths, m, k) {
      assert ChildOk(nodes, paths, m, k);
    }
    forall m | 0 < m < |nodes'| ensures HasParent(nodes', paths, m) {
      assert HasParent(nodes, paths, m);
      var p :| 0 <= p < |nodes| && nodes[p].children.Block? && paths[p] == paths[m][..|paths[m]| - 1];
      assert nodes'[p].children.Block?;
    }
    assert nodes'[n].isWord && forall m :: 0 <= m < |nodes| && m != n ==> nodes'[m] == nodes[m];
  }

  // ----- compounds

  function Concat(words: seq<Word>): Word { if words == [] then [] else words[0] + Concat(words[1..]) }

  /** s is the concatenation of at least k of the words. */
  ghost predicate Splits(words: set<Word>, s: Word, k: nat) {
    exists parts: seq<Word> ::
      |parts| >= k && (forall i :: 0 <= i < |parts| ==> parts[i] in words) && Concat(parts) == s
  }

  /** The first part is a word, the rest still splits. */
  ghost predicate SplitsAfter(words: set<Word>, s: Word, k: nat) {
    exists i :: 0 < i < |s| && s[..i] in words && Splits(words, s[i..], k)
  }

  lemma ConcatOne(w: Word)
    ensures Concat([w]) == w
  {
    assert w + [] == w;
  }

  lemma ConcatEmpty(words: set<Word>, parts: seq<Word>)
    requires [] !in words && parts != [] && forall i :: 0 <= i < |parts| ==> parts[i] in words
    ensures Concat(parts) != []
  {
    assert parts[0] != [];
  }

  lemma SplitsUnroll(words: set<Word>, s: Word)
    requires [] !in words
    ensures Splits(words, s, 1) <==> s in words || SplitsAfter(words, s, 1)
    ensures Splits(words, s, 2) <==> SplitsAfter(words, s, 1)
  {
    if Splits(words, s, 1) { SplitFirst(words, s, 1); }
    if Splits(words, s, 2) { SplitFirst(words, s, 2); }
    if s in words {
      ConcatOne(s);
      assert [s][0] in words;
    }
    if SplitsAfter(words, s, 1) {
      var i :| 0 < i < |s| && s[..i] in words && Splits(words, s[i..], 1);
      var parts: seq<Word> :|
        |parts| >= 1 && (forall j :: 0 <= j < |parts| ==> parts[j] in words) && Concat(parts) == s[i..];
      var all := [s[..i]] + parts;
      assert all[1..] == parts && s == s[..i] + s[i..];
      assert forall j :: 0 <= j < |all| ==> all[j] in words;
    }
  }

  lemma SplitFirst(words: set<Word>, s: Word, k: nat)
    requires [] !in words && k > 0 && Splits(words, s, k)
    ensures (k == 1 && s in words) || SplitsAfter(words, s, 1)
  {
    var parts: seq<Word> :| |parts| >= k && (forall j :: 0 <= j < |parts| ==> parts[j] in words) && Concat(parts) == s;
    if |parts| == 1 {
      assert parts == [parts[0]];
      ConcatOne(parts[0]);
    } else {
      var i := |parts[0]|;
      ConcatEmpty(words, parts[1..]);
      assert s[..i] == parts[0] && s[i..] == Concat(parts[1..]);
      assert Splits(words, s[i..], 1);
      assert parts[0] in words;
    }
  }

  datatype Todo = Todo(count: nat, rest: Word)

  /** What is left of a word, after `count` words taken off its front, still makes it a compound. */
  ghost predicate Open(words: set<Word>, t: Todo) { Splits(words, t.rest, if t.count == 0 then 2 else 1) }

  ghost predicate AnyOpen(words: set<Word>, stack: seq<Todo>) { exists i :: 0 <= i < |stack| && Open(words, stack[i]) }

  /** e is what is left of t after a word that is one of the first i prefixes of its rest. */
  ghost predicate IsSuffix(words: set<Word>, t: Todo, i: nat, e: Todo) {
    exists j :: 0 < j < i && j < |t.rest| && t.rest[..j] in words && e == Todo(t.count + 1, t.rest[j..])
  }

  ghost predicate Suffixes(words: set<Word>, t: Todo, i: nat, added: seq<Todo>) {
    forall e :: e in added <==> IsSuffix(words, t, i, e)
  }

  lemma SuffixesNext(words: set<Word>, t: Todo, i: nat, added: seq<Todo>)
    requires Suffixes(words, t, i, added) && 0 < i < |t.rest|
    ensures Suffixes(words, t, i + 1,
              if t.rest[..i] in words then added + [Todo(t.count + 1, t.rest[i..])] else added)
  {
    var next := Todo(t.count + 1, t.rest[i..]);
    forall e ensures e in added + [next] <==> e in added || e == next {}
    forall e
      ensures IsSuffix(words, t, i + 1, e) <==> IsSuffix(words, t, i, e) || (t.rest[..i] in words && e == next)
    {
      if IsSuffix(words, t, i, e) {
        var j :| 0 < j < i && j < |t.rest| && t.rest[..j] in words && e == Todo(t.count + 1, t.rest[j..]);
        assert j < i + 1;
      }
    }
  }

  /** One round: the suffixes pushed, or the word itself, stand for what was popped. */
  lemma RoundKeepsOpen(words: set<Word>, t: Todo, added: seq<Todo>)
    requires [] !in words && Suffixes(words, t, |t.rest|, added)
    ensures Open(words, t) <==> (t.count > 0 && t.rest in words) || AnyOpen(words, added)
  {
    SplitsUnroll(words, t.rest);
    if SplitsAfter(words, t.rest, 1) {
      var j :| 0 < j < |t.rest| && t.rest[..j] in words && Splits(words, t.rest[j..], 1);
      var next := Todo(t.count + 1, t.rest[j..]);
      assert IsSuffix(words, t, |t.rest|, next);
      assert next in added && Open(words, next);
    }
    if AnyOpen(words, added) {
      var e :| 0 <= e < |added| && Open(words, added[e]);
      assert added[e] in added;
      var j :| 0 < j < |t.rest| && t.rest[..j] in words && added[e] == Todo(t.count + 1, t.rest[j..]);
    }
  }

  lemma AnyOpenConcat(words: set<Word>, s: seq<Todo>, t: seq<Todo>)
    ensures AnyOpen(words, s + t) <==> AnyOpen(words, s) || AnyOpen(words, t)
  {
    if AnyOpen(words, t) {
      var i :| 0 <= i < |t| && Open(words, t[i]);
      assert (s + t)[|s| + i] == t[i];
    }
    if AnyOpen(words, s) {
      var i :| 0 <= i < |s| && Open(words, s[i]);
      assert (s + t)[i] == s[i];
    }
  }

  // ----- why the search for a compound ends

  function Load(stack: seq<Todo>): nat {
    if stack == [] then 0 else Load(stack[..|stack| - 1]) + Pow2(|stack[|stack| - 1].rest|)
  }

  lemma LoadSnoc(stack: seq<Todo>, t: Todo)
    ensures Load(stack + [t]) == Load(stack) + Pow2(|t.rest|)
  {
    assert (stack + [t])[..|stack|] == stack;
  }

  // ----- lexicographic order

  function Codes(w: Word): seq<int> { seq(|w|, i requires 0 <= i < |w| => Index(w[i])) }

  predicate Before(s: Word, t: Word) { Less(Codes(s), Codes(t)) }

  predicate Ascending(words: seq<Word>) { forall i, j :: 0 <= i < j < |words| ==> Before(words[i], words[j]) }

  lemma AscendingIsDistinct(words: seq<Word>)
    requires Ascending(words)
    ensures Distinct(words)
  {
    forall i, j | 0 <= i < j < |words| ensures words[i] != words[j] {
      LessAsymmetric(Codes(words[i]), Codes(words[j]));
    }
  }

  lemma BeforeByLetter(prefix: Word, a: Letter, s: Word, b: Letter, t: Word)
    requires a < b && prefix + [a] <= s && prefix + [b] <= t
    ensures Before(s, t)
  {
    CodesPrefix(prefix + [a], s);
    CodesPrefix(prefix + [b], t);
    assert Codes(prefix + [a]) == Codes(prefix) + [Index(a)] && Codes(prefix + [b]) == Codes(prefix) + [Index(b)];
    LessAt(Codes(prefix), Index(a), Codes(s), Index(b), Codes(t));
  }

  lemma CodesPrefix(s: Word, t: Word)
    requires s <= t
    ensures Codes(s) <= Codes(t)
  {}

  lemma BeforeExtended(s: Word, t: Word)
    requires s < t
    ensures Before(s, t)
  {
    CodesPrefix(s, t);
    LessExtended(Codes(s), Codes(t));
  }

  // ----- the trie

  class Trie {
    var nodes: seq<Node>
    ghost var paths: seq<Word>

    ghost predicate Valid()
      reads this
    {
      Shaped(nodes, paths)
    }

    ghost function Inserted(): set<Word>
      requires Valid()
      reads this
    {
      Words(nodes, paths)
    }

    constructor ()
      ensures Valid() && Inserted() == {}
    {
      nodes, paths := [Node(Leaf, false)], [[]];
    }

    method Insert(word: Word)
      requires Valid()
      modifies this
      ensures Valid()
      ensures Inserted() == old(Inserted()) + if word == [] then {} else {word}
    {
      hide Shaped, Words, Grown, GrownPaths;
      var node := 0;
      RootPath(nodes, paths);
      for i := 0 to |word|
        invariant Valid() && Inserted() == old(Inserted())
        invariant 0 <= node < |nodes| == |paths| && paths[node] == word[..i]
      {
        if nodes[node].children.Leaf? {
          GrownShaped(nodes, paths, node);
          GrownKeeps(nodes, paths, node);
          nodes, paths := Grown(nodes, node), GrownPaths(paths, node);
        }
        ChildPath(nodes, paths, node, word[i]);
        node := Child(nodes, node, Index(word[i]));
        assert word[..i + 1] == word[..i] + [word[i]];
      }
      assert word[..|word|] == word;
      OnlyRoot(nodes, paths, node);
      if node != 0 {
        Marked(nodes, paths, node);
        nodes := nodes[node := nodes[node].(isWord := true)];
      }
    }

    method Contains(word: Word) returns (r: bool)
      requires Valid()
      ensures r <==> word in Inserted()
    {
      hide Shaped, Words;
      var node := 0;
      RootPath(nodes, paths);
      for i := 0 to |word|
        invariant 0 <= node < |nodes| == |paths| && paths[node] == word[..i]
      {
        if nodes[node].children.Leaf? {
          NoWordBelow(nodes, paths, node);
          assert word[..i] < word;
          return false;
        }
        ChildPath(nodes, paths, node, word[i]);
        node := Child(nodes, node, Index(word[i]));
        assert word[..i + 1] == word[..i] + [word[i]];
      }
      assert word[..|word|] == word;
      IsWordAt(nodes, paths, node);
      r := nodes[node].isWord;
    }

    /** One round of is_compound: walks down t.rest, stacking what is left after every word on the way. */
    method Round(t: Todo, stack: seq<Todo>) returns (compound: bool, stack': seq<Todo>)
      requires Valid()
      ensures Open(Inserted(), t) || AnyOpen(Inserted(), stack) <==> compound || AnyOpen(Inserted(), stack')
      ensures compound ==> t.count > 0 && t.rest in Inserted()
      ensures Load(stack') < Load(stack + [t])
    {
      hide Shaped, Words, Suffixes, Open, AnyOpen, Load;
      ghost var words := Inserted();
      ghost var added: seq<Todo> := [];
      stack' := stack;
      var node := 0;  // -1 when the walk has fallen off the tree
      var i := 0;
      RootPath(nodes, paths);
      NoSuffixes(words, t);
      LoadSnoc(stack, t);
      assert stack + [] == stack;
      while node >= 0 && i < |t.rest|
        invariant 0 <= i <= |t.rest| && -1 <= node < |nodes| == |paths|
        invariant node >= 0 ==> paths[node] == t.rest[..i]
        invariant node < 0 ==> forall w :: w in words ==> !(t.rest[..i] <= w)
        invariant i == 0 ==> node == 0
        invariant Suffixes(words, t, if i == 0 then 1 else i, added) && stack' == stack + added
        invariant if i == 0 then added == [] else Load(stack') + Pow2(|t.rest| - i + 1) <= Load(stack) + Pow2(|t.rest|)
        decreases |t.rest| - i
      {
        IsWordAt(nodes, paths, node);
        NoEmptyWord(nodes, paths);
        if i > 0 { SuffixesNext(words, t, i, added); }
        if nodes[node].isWord {
          var next := Todo(t.count + 1, t.rest[i..]);
          LoadSnoc(stack', next);
          assert stack' + [next] == stack + (added + [next]);
          stack' := stack' + [next];
          added := added + [next];
        }
        assert t.rest[..i + 1] == t.rest[..i] + [t.rest[i]];
        if nodes[node].children.Block? {
          ChildPath(nodes, paths, node, t.rest[i]);
          node := Child(nodes, node, Index(t.rest[i]));
        } else {
          NoWordBelow(nodes, paths, node);
          node := -1;
        }
        i := i + 1;
      }
      compound := node >= 0 && nodes[node].isWord && t.count > 0;
      RoundEnd(nodes, paths, t, node, i, added);
      AnyOpenConcat(words, stack, added);
    }

    /** Whether the word is a concatenation of two or more inserted words. */
    method IsCompound(word: Word) returns (compound: bool)
      requires Valid()
      ensures compound <==> Splits(Inserted(), word, 2)
    {
      hide Shaped, Words, Splits, Load;
      compound := false;
      var stack := [Todo(0, word)];
      assert AnyOpen(Inserted(), stack) <==> Splits(Inserted(), word, 2) by {
        assert Open(Inserted(), stack[0]) <==> Splits(Inserted(), word, 2);
      }
      while !compound && stack != []
        invariant Splits(Inserted(), word, 2) <==> compound || AnyOpen(Inserted(), stack)
        decreases !compound, Load(stack)
      {
        var t := stack[|stack| - 1];
        var rest := stack[..|stack| - 1];
        assert stack == rest + [t];
        TopOpen(Inserted(), rest, t);
        compound, stack := Round(t, rest);
      }
    }

    /** All inserted words below a node, in lexicographic order. */
    method Join(prefix: Word, node: nat) returns (words: seq<Word>)
      requires Valid() && node < |nodes| && paths[node] == prefix
      ensures Ascending(words)
      ensures forall w :: w in words <==> w in Inserted() && prefix <= w
      decreases |nodes| - node
    {
      hide Shaped, Words, Ascending;
      words := [];
      if nodes[node].isWord { words := [prefix]; }
      if nodes[node].children.Block? {
        ListStart(nodes, paths, node, words);
        for n := 0 to 26
          invariant Listed(Inserted(), prefix, n, words) && Ascending(words)
        {
          ChildPath(nodes, paths, node, LetterAt(n));
          var more := Join(prefix + [LetterAt(n)], Child(nodes, node, n));
          ListNext(Inserted(), prefix, n, words, more);
          words := words + more;
        }
        ListEnd(Inserted(), prefix, words);
      } else {
        ListLeaf(nodes, paths, node, words);
      }
    }

    /** Every inserted word once, in lexicographic order. */
    method JoinAll() returns (words: seq<Word>)
      requires Valid()
      ensures Ascending(words) && Distinct(words)
      ensures forall w :: w in words <==> w in Inserted()
    {
      RootPath(nodes, paths);
      words := Join([], 0);
      AscendingIsDistinct(words);
    }
  }

  lemma TopOpen(words: set<Word>, rest: seq<Todo>, t: Todo)
    ensures AnyOpen(words, rest + [t]) <==> Open(words, t) || AnyOpen(words, rest)
  {
    AnyOpenConcat(words, rest, [t]);
    assert Open(words, t) <==> Open(words, [t][0]);
  }

  /** `list` are the words with this prefix that end there or go on with one of the first n letters. */
  ghost predicate Listed(words: set<Word>, prefix: Word, n: nat, list: seq<Word>) {
    forall w :: w in list <==>
      w in words && prefix <= w && (w == prefix || Index(w[|prefix|]) < n)
  }

  lemma ListStart(nodes: seq<Node>, paths: seq<Word>, node: nat, list: seq<Word>)
    requires Shaped(nodes, paths) && node < |nodes|
    requires list == if nodes[node].isWord then [paths[node]] else []
    ensures Listed(Words(nodes, paths), paths[node], 0, list) && Ascending(list)
  {
    IsWordAt(nodes, paths, node);
  }

  lemma ListLeaf(nodes: seq<Node>, paths: seq<Word>, node: nat, list: seq<Word>)
    requires Shaped(nodes, paths) && node < |nodes| && nodes[node].children.Leaf?
    requires list == if nodes[node].isWord then [paths[node]] else []
    ensures Ascending(list) && forall w :: w in list <==> w in Words(nodes, paths) && paths[node] <= w
  {
    IsWordAt(nodes, paths, node);
    NoWordBelow(nodes, paths, node);
  }

  lemma ListNext(words: set<Word>, prefix: Word, n: nat, list: seq<Word>, more: seq<Word>)
    requires n < 26 && Listed(words, prefix, n, list) && Ascending(list) && Ascending(more)
    requires forall w :: w in more <==> w in words && prefix + [LetterAt(n)] <= w
    ensures Listed(words, prefix, n + 1, list + more) && Ascending(list + more)
  {
    forall w ensures w in more <==> w in words && prefix < w && Index(w[|prefix|]) == n {
      if prefix < w && Index(w[|prefix|]) == n { assert prefix + [LetterAt(n)] <= w; }
    }
    forall w ensures w in list + more <==> w in list || w in more {}
    var all := list + more;
    forall i, j | 0 <= i < j < |all| ensures Before(all[i], all[j]) {
      if i < |list| <= j {
        assert all[i] in list && all[j] in more;
        if all[i] == prefix {
          BeforeExtended(prefix, all[j]);
        } else {
          var a := all[i][|prefix|];
          assert prefix + [a] <= all[i];
          BeforeByLetter(prefix, a, all[i], LetterAt(n), all[j]);
        }
      }
    }
  }

  lemma ListEnd(words: set<Word>, prefix: Word, list: seq<Word>)
    requires Listed(words, prefix, 26, list)
    ensures forall w :: w in list <==> w in words && prefix <= w
  {
    forall w | w in words && prefix < w ensures Index(w[|prefix|]) < 26 {}
  }

  lemma RootPath(nodes: seq<Node>, paths: seq<Word>)
    requires Shaped(nodes, paths)
    ensures |nodes| == |paths| > 0 && paths[0] == []
  {}

  lemma OnlyRoot(nodes: seq<Node>, paths: seq<Word>, n: nat)
    requires Shaped(nodes, paths) && n < |nodes|
    ensures paths[n] == [] <==> n == 0
  {
    if n > 0 { assert HasParent(nodes, paths, n); }
  }

  lemma ChildPath(nodes: seq<Node>, paths: seq<Word>, n: nat, c: Letter)
    requires Shaped(nodes, paths) && n < |nodes| && nodes[n].children.Block?
    ensures n < Child(nodes, n, Index(c)) < |nodes|
    ensures paths[Child(nodes, n, Index(c))] == paths[n] + [c]
  {
    assert ChildOk(nodes, paths, n, Index(c));
  }

  lemma GrownKeeps(nodes: seq<Node>, paths: seq<Word>, n: nat)
    requires |nodes| == |paths| && n < |nodes|
    ensures |Grown(nodes, n)| == |GrownPaths(paths, n)| > n && Grown(nodes, n)[n].children.Block?
    ensures GrownPaths(paths, n)[n] == paths[n]
  {}

  lemma RoundEnd(nodes: seq<Node>, paths: seq<Word>, t: Todo, node: int, i: nat, added: seq<Todo>)
    requires Shaped(nodes, paths) && i <= |t.rest| && -1 <= node < |nodes|
    requires node >= 0 ==> i == |t.rest| && paths[node] == t.rest
    requires node < 0 ==> i > 0 && forall w :: w in Words(nodes, paths) ==> !(t.rest[..i] <= w)
    requires Suffixes(Words(nodes, paths), t, if i == 0 then 1 else i, added)
    ensures Open(Words(nodes, paths), t) <==>
              (node >= 0 && nodes[node].isWord && t.count > 0) || AnyOpen(Words(nodes, paths), added)
    ensures node >= 0 && nodes[node].isWord ==> t.rest in Words(nodes, paths)
  {
    var words := Words(nodes, paths);
    NoEmptyWord(nodes, paths);
    if node >= 0 {
      IsWordAt(nodes, paths, node);
    } else {
      assert t.rest[..i] <= t.rest && t.rest !in words;
      forall j | i <= j < |t.rest| ensures t.rest[..j] !in words { assert t.rest[..i] <= t.rest[..j]; }
    }
    forall e ensures IsSuffix(words, t, if i == 0 then 1 else i, e) <==> IsSuffix(words, t, |t.rest|, e) {}
    RoundKeepsOpen(words, t, added);
  }

  lemma NoSuffixes(words: set<Word>, t: Todo)
    ensures Suffixes(words, t, 1, [])
  {}
}
