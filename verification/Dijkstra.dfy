/** Shortest paths in a directed graph with non-negative weights (exercises/dijkstra.cpp):
    find_shortest_path with its parent walk. A negative entry means there is no edge. */
module Dijkstra {
  import opened Basics

  const INT_MAX := 0x7fff_ffff

  /** graph[u][v] is the weight of the edge from u to v. */
  type Graph = g: seq<seq<int>> | forall u :: 0 <= u < |g| ==> |g[u]| == |g| witness []

  predicate Edge(g: Graph, u: int, v: int) { 0 <= u < |g| && 0 <= v < |g| && g[u][v] >= 0 }

  /** p goes from a along edges. */
  predicate Walk(g: Graph, a: int, p: seq<int>)
    decreases |p|
  {
    p != [] && 0 <= a < |g| &&
    if |p| == 1 then p[0] == a
    else Walk(g, a, p[..|p| - 1]) && Edge(g, p[|p| - 2], p[|p| - 1])
  }

  function Weight(g: Graph, a: int, p: seq<int>): nat
    requires Walk(g, a, p)
    decreases |p|
  {
    if |p| == 1 then 0 else Weight(g, a, p[..|p| - 1]) + g[p[|p| - 2]][p[|p| - 1]]
  }

  /** No path through distinct vertices weighs INT_MAX or more, so the sums below do not overflow. */
  ghost predicate SumsFit(g: Graph, a: int) {
    forall p :: Walk(g, a, p) && Distinct(p) ==> Weight(g, a, p) < 0x7fff_ffff
  }

  ghost predicate Reachable(g: Graph, a: int, b: int) {
    exists p :: Walk(g, a, p) && p[|p| - 1] == b
  }

  /** A walk in terms of the matrix: it steps along entries that are not negative, zero included. */
  lemma {:induction false} WalkInMatrix(g: Graph, a: int, p: seq<int>)
    ensures Walk(g, a, p) <==>
      p != [] && p[0] == a && (forall i :: 0 <= i < |p| ==> 0 <= p[i] < |g|) &&
      forall i :: 0 < i < |p| ==> g[p[i - 1]][p[i]] >= 0
    decreases |p|
  {
    if |p| > 1 {
      var front := p[..|p| - 1];
      WalkInMatrix(g, a, front);
      assert p == front + [p[|p| - 1]];
    }
  }

  /** A zero entry is an edge that costs nothing. */
  lemma ZeroIsEdge(g: Graph, a: int, p: seq<int>, v: int)
    requires Walk(g, a, p) && 0 <= v < |g| && g[p[|p| - 1]][v] == 0
    ensures Walk(g, a, p + [v]) && Weight(g, a, p + [v]) == Weight(g, a, p)
  {
    assert (p + [v])[..|p|] == p;
  }

  lemma WalkExtends(g: Graph, a: int, p: seq<int>, v: int)
    requires Walk(g, a, p) && Edge(g, p[|p| - 1], v)
    ensures Walk(g, a, p + [v]) && Weight(g, a, p + [v]) == Weight(g, a, p) + g[p[|p| - 1]][v]
  {
    assert (p + [v])[..|p|] == p;
  }

  // ----- what the search knows

  /** distance, parent and visited as values, with, for every vertex reached, the path behind its
      distance: `paths` is only used in the proof. */
  ghost predicate Reached(g: Graph, a: int, visited: set<int>,
                          distance: seq<int>, parent: seq<int>, paths: seq<seq<int>>) {
    |distance| == |parent| == |paths| == |g| && 0 <= a < |g| &&
    distance[a] == 0 && paths[a] == [a] &&
    forall v :: 0 <= v < |g| ==> VertexOk(g, a, visited, distance, parent, paths, v)
  }

  ghost predicate VertexOk(g: Graph, a: int, visited: set<int>,
                           distance: seq<int>, parent: seq<int>, paths: seq<seq<int>>, v: int)
    requires |distance| == |parent| == |paths| == |g| && 0 <= v < |g|
  {
    0 <= distance[v] <= INT_MAX &&
    (v in visited ==> distance[v] < INT_MAX) &&
    (distance[v] < INT_MAX ==>
       var p := paths[v];
       Walk(g, a, p) && Distinct(p) && p[|p| - 1] == v && Weight(g, a, p) == distance[v] &&
       (forall i :: 0 <= i < |p| - 1 ==> p[i] in visited) &&
       (v != a ==> |p| > 1 && parent[v] == p[|p| - 2] && paths[parent[v]] == p[..|p| - 1]))
  }

  /** Edges out of visited vertices are accounted for, and visited vertices are no farther than others. */
  ghost predicate Relaxed(g: Graph, visited: set<int>, distance: seq<int>)
    requires |distance| == |g|
  {
    (forall u, v :: u in visited && Edge(g, u, v) ==> distance[v] <= distance[u] + g[u][v]) &&
    (forall u, v :: u in visited && 0 <= u < |g| && 0 <= v < |g| && v !in visited ==> distance[u] <= distance[v])
  }

  /** The search is over: what has not been visited has not been reached. */
  ghost predicate Done(g: Graph, visited: set<int>, distance: seq<int>)
    requires |distance| == |g|
  {
    forall v :: 0 <= v < |g| ==> (v in visited <==> distance[v] < INT_MAX)
  }

  lemma {:induction false} NoShorterWalk(g: Graph, a: int, visited: set<int>, distance: seq<int>, p: seq<int>)
    requires |distance| == |g| && 0 <= a < |g| && distance[a] == 0 && a in visited
    requires Relaxed(g, visited, distance) && Walk(g, a, p)
    requires forall i :: 0 <= i < |p| ==> p[i] in visited
    ensures distance[p[|p| - 1]] <= Weight(g, a, p)
    decreases |p|
  {
    if |p| > 1 {
      NoShorterWalk(g, a, visited, distance, p[..|p| - 1]);
    }
  }

  /** The sum the code compares is the weight of a path through distinct vertices: it does not overflow. */
  lemma SumFits(g: Graph, a: int, visited: set<int>,
                distance: seq<int>, parent: seq<int>, paths: seq<seq<int>>, u: int, v: int)
    requires SumsFit(g, a) && Reached(g, a, visited, distance, parent, paths)
    requires u in visited && v !in visited && Edge(g, u, v)
    ensures distance[u] + g[u][v] < INT_MAX
    ensures Walk(g, a, paths[u] + [v]) && Distinct(paths[u] + [v])
    ensures Weight(g, a, paths[u] + [v]) == distance[u] + g[u][v]
  {
    assert VertexOk(g, a, visited, distance, parent, paths, u);
    WalkExtends(g, a, paths[u], v);
  }

  lemma {:induction false} WalkVisited(g: Graph, a: int, visited: set<int>, distance: seq<int>, parent: seq<int>,
                                       paths: seq<seq<int>>, p: seq<int>)
    requires SumsFit(g, a) && Reached(g, a, visited, distance, parent, paths) && a in visited
    requires Relaxed(g, visited, distance) && Done(g, visited, distance) && Walk(g, a, p)
    ensures forall i :: 0 <= i < |p| ==> p[i] in visited
    decreases |p|
  {
    if |p| > 1 {
      var u, v := p[|p| - 2], p[|p| - 1];
      WalkVisited(g, a, visited, distance, parent, paths, p[..|p| - 1]);
      assert p[..|p| - 1][|p| - 2] in visited;
      if v !in visited { SumFits(g, a, visited, distance, parent, paths, u, v); }
    }
  }

  /** d is the weight of a shortest walk from a to v. */
  ghost predicate IsDistance(g: Graph, a: int, v: int, d: int) {
    (exists p :: Walk(g, a, p) && p[|p| - 1] == v && Weight(g, a, p) == d) &&
    forall p :: Walk(g, a, p) && p[|p| - 1] == v ==> d <= Weight(g, a, p)
  }

  /** The distances are right for every vertex, and say which vertices can be reached at all. */
  lemma DistancesRight(g: Graph, a: int, visited: set<int>,
                       distance: seq<int>, parent: seq<int>, paths: seq<seq<int>>, v: int)
    requires SumsFit(g, a) && Reached(g, a, visited, distance, parent, paths) && a in visited
    requires Relaxed(g, visited, distance) && Done(g, visited, distance) && 0 <= v < |g|
    ensures distance[v] < INT_MAX <==> Reachable(g, a, v)
    ensures distance[v] < INT_MAX ==> IsDistance(g, a, v, distance[v])
  {
    assert VertexOk(g, a, visited, distance, parent, paths, v);
    forall p | Walk(g, a, p) && p[|p| - 1] == v
      ensures distance[v] < INT_MAX && distance[v] <= Weight(g, a, p)
    {
      WalkVisited(g, a, visited, distance, parent, paths, p);
      NoShorterWalk(g, a, visited, distance, p);
    }
  }

  // ----- one step of the search

  lemma VisitStep(g: Graph, a: int, visited: set<int>,
                  distance: seq<int>, parent: seq<int>, paths: seq<seq<int>>, u: int)
    requires Reached(g, a, visited, distance, parent, paths) && 0 <= u < |g| && distance[u] < INT_MAX
    ensures Reached(g, a, visited + {u}, distance, parent, paths)
  {
    forall v | 0 <= v < |g| ensures VertexOk(g, a, visited + {u}, distance, parent, paths, v) {
      assert VertexOk(g, a, visited, distance, parent, paths, v);
    }
  }

  lemma RelaxStep(g: Graph, a: int, visited: set<int>,
                  distance: seq<int>, parent: seq<int>, paths: seq<seq<int>>, u: int, v: int)
    requires SumsFit(g, a) && Reached(g, a, visited, distance, parent, paths) && a in visited
    requires u in visited && v !in visited && Edge(g, u, v)
    ensures Reached(g, a, visited, distance[v := distance[u] + g[u][v]], parent[v := u], paths[v := paths[u] + [v]])
  {
    hide VertexOk, Walk, Weight, SumsFit;
    var distance', parent', paths' := distance[v := distance[u] + g[u][v]], parent[v := u], paths[v := paths[u] + [v]];
    assert VertexOk(g, a, visited, distance, parent, paths, u) && VertexOk(g, a, visited, distance, parent, paths, v);
    SumFits(g, a, visited, distance, parent, paths, u, v);
    forall x | 0 <= x < |g| ensures VertexOk(g, a, visited, distance', parent', paths', x) {
      assert VertexOk(g, a, visited, distance, parent, paths, x);
      if x == v {
        RelaxedVertex(g, a, visited, distance, parent, paths, u, v);
      } else {
        OtherVertex(g, a, visited, distance, parent, paths, v, x, distance[u] + g[u][v], u, paths[u] + [v]);
      }
    }
  }

  lemma RelaxedVertex(g: Graph, a: int, visited: set<int>,
                      distance: seq<int>, parent: seq<int>, paths: seq<seq<int>>, u: int, v: int)
    requires SumsFit(g, a) && Reached(g, a, visited, distance, parent, paths) && a in visited
    requires u in visited && v !in visited && Edge(g, u, v)
    ensures VertexOk(g, a, visited, distance[v := distance[u] + g[u][v]], parent[v := u],
                     paths[v := paths[u] + [v]], v)
  {
    hide SumsFit, Walk, Weight;
    assert VertexOk(g, a, visited, distance, parent, paths, u);
    SumFits(g, a, visited, distance, parent, paths, u, v);
    assert (paths[u] + [v])[..|paths[u]|] == paths[u];
  }

  /** Nothing changes for a vertex x other than v, whose parent is a visited vertex. */
  lemma OtherVertex(g: Graph, a: int, visited: set<int>, distance: seq<int>, parent: seq<int>, paths: seq<seq<int>>,
                    v: int, x: int, d: int, u: int, p: seq<int>)
    requires |distance| == |parent| == |paths| == |g| && 0 <= x < |g| && 0 <= v < |g| && x != v && v !in visited
    requires VertexOk(g, a, visited, distance, parent, paths, x)
    ensures VertexOk(g, a, visited, distance[v := d], parent[v := u], paths[v := p], x)
  {
    hide Weight, Distinct;
    if distance[x] < INT_MAX && x != a { assert paths[x][|paths[x]| - 2] in visited; }
  }

  function VisitedSet(visited: seq<bool>): set<int> { set v | 0 <= v < |visited| && visited[v] }

  lemma VisitedSetAfter(visited: seq<bool>, u: nat)
    requires u < |visited|
    ensures VisitedSet(visited[u := true]) == VisitedSet(visited) + {u}
  {}

  /** Relaxed, for all edges but those from u to vertices from `from` on. */
  ghost predicate RelaxedUpTo(g: Graph, visited: set<int>, distance: seq<int>, u: int, from: int)
    requires |distance| == |g|
  {
    u in visited && 0 <= u < |g| &&
    (forall x :: x in visited && 0 <= x < |g| ==> distance[x] <= distance[u]) &&
    (forall x, y :: x in visited && 0 <= x < |g| && 0 <= y < |g| && y !in visited ==> distance[x] <= distance[y]) &&
    (forall x, y :: x in visited && Edge(g, x, y) && (x != u || y < from) ==> distance[y] <= distance[x] + g[x][y])
  }

  lemma RelaxedStart(g: Graph, visited: set<int>, distance: seq<int>, u: int)
    requires |distance| == |g| && Relaxed(g, visited, distance) && 0 <= u < |g| && u !in visited
    requires Chosen(visited, distance, u)
    ensures RelaxedUpTo(g, visited + {u}, distance, u, 0)
  {}

  lemma RelaxedEnd(g: Graph, visited: set<int>, distance: seq<int>, u: int)
    requires |distance| == |g| && RelaxedUpTo(g, visited, distance, u, |g|)
    ensures Relaxed(g, visited, distance)
  {}

  lemma RelaxedNext(g: Graph, visited: set<int>, distance: seq<int>, u: int, i: nat)
    requires |distance| == |g| && RelaxedUpTo(g, visited, distance, u, i) && i < |g|
    ensures !Edge(g, u, i) || i in visited || distance[u] + g[u][i] >= distance[i] ==>
      RelaxedUpTo(g, visited, distance, u, i + 1)
    ensures Edge(g, u, i) && i !in visited && distance[u] + g[u][i] < distance[i] ==>
      RelaxedUpTo(g, visited, distance[i := distance[u] + g[u][i]], u, i + 1)
  {}

  // ----- the method

  /** Finds the shortest paths to all neighbours through `current`. */
  method Relax(g: Graph, a: int, current: nat, visited: array<bool>, distance: array<int>, parent: array<int>,
               ghost paths: seq<seq<int>>) returns (ghost paths': seq<seq<int>>)
    requires SumsFit(g, a) && distance != parent
    requires visited.Length == distance.Length == parent.Length == |g|
    requires a in VisitedSet(visited[..])
    requires Reached(g, a, VisitedSet(visited[..]), distance[..], parent[..], paths)
    requires RelaxedUpTo(g, VisitedSet(visited[..]), distance[..], current, 0)
    modifies distance, parent
    ensures visited[..] == old(visited[..])
    ensures Reached(g, a, VisitedSet(visited[..]), distance[..], parent[..], paths')
    ensures Relaxed(g, VisitedSet(visited[..]), distance[..])
  {
    hide SumsFit, Reached, RelaxedUpTo, Relaxed;
    paths' := paths;
    ghost var seen := VisitedSet(visited[..]);
    InSeen(g, seen, distance[..], current);
    for i := 0 to |g|
      invariant visited[..] == old(visited[..])
      invariant Reached(g, a, seen, distance[..], parent[..], paths')
      invariant RelaxedUpTo(g, seen, distance[..], current, i)
    {
      RelaxedNext(g, seen, distance[..], current, i);
      var weight := g[current][i];
      if !visited[i] && weight >= 0 {
        SumFits(g, a, seen, distance[..], parent[..], paths', current, i);
        if distance[current] + weight < distance[i] {
          ReachedSizes(g, a, seen, distance[..], parent[..], paths');
          RelaxStep(g, a, seen, distance[..], parent[..], paths', current, i);
          distance[i], parent[i] := distance[current] + weight, current;
          paths' := paths'[i := paths'[current] + [i]];
        }
      }
    }
    RelaxedEnd(g, seen, distance[..], current);
  }

  lemma InSeen(g: Graph, visited: set<int>, distance: seq<int>, u: int)
    requires |distance| == |g| && RelaxedUpTo(g, visited, distance, u, 0)
    ensures u in visited && 0 <= u < |g|
  {}

  lemma ReachedSizes(g: Graph, a: int, visited: set<int>, distance: seq<int>, parent: seq<int>, paths: seq<seq<int>>)
    requires Reached(g, a, visited, distance, parent, paths)
    ensures |distance| == |parent| == |paths| == |g|
  {}

  /** The vertex to visit next: the nearest one not visited; a visited one when no other has been reached. */
  ghost predicate Chosen(visited: set<int>, distance: seq<int>, v: int) {
    0 <= v < |distance| &&
    if v in visited then forall x :: 0 <= x < |distance| && x !in visited ==> distance[x] == INT_MAX
    else distance[v] < INT_MAX && forall x :: 0 <= x < |distance| && x !in visited ==> distance[v] <= distance[x]
  }

  method Nearest(current: nat, visited: array<bool>, distance: array<int>) returns (next: nat)
    requires visited.Length == distance.Length && current < visited.Length && visited[current]
    requires forall v :: 0 <= v < distance.Length ==> distance[v] <= INT_MAX
    ensures next < visited.Length
    ensures Chosen(VisitedSet(visited[..]), distance[..], next)
  {
    next := current;
    var D := INT_MAX;
    for i := 0 to visited.Length
      invariant next < visited.Length
      invariant if visited[next] then D == INT_MAX else D == distance[next] < INT_MAX
      invariant forall v :: 0 <= v < i && !visited[v] ==> D <= distance[v]
    {
      if !visited[i] && distance[i] < D {
        D, next := distance[i], i;
      }
    }
  }

  lemma SearchStart(g: Graph, a: int, distance: seq<int>, parent: seq<int>, paths: seq<seq<int>>)
    requires 0 <= a < |g| == |distance| == |parent| == |paths|
    requires forall v :: 0 <= v < |g| ==> distance[v] == (if v == a then 0 else INT_MAX) && paths[v] == [a]
    ensures Reached(g, a, {}, distance, parent, paths) && Relaxed(g, {}, distance)
  {}

  lemma AtMostMax(g: Graph, a: int, seen: set<int>, distance: seq<int>, parent: seq<int>, paths: seq<seq<int>>)
    requires Reached(g, a, seen, distance, parent, paths)
    ensures |distance| == |g| && forall v :: 0 <= v < |g| ==> distance[v] <= INT_MAX
  {
    forall v | 0 <= v < |g| ensures distance[v] <= INT_MAX {
      assert VertexOk(g, a, seen, distance, parent, paths, v);
    }
  }

  lemma SearchEnd(g: Graph, a: int, seen: set<int>, distance: seq<int>, parent: seq<int>, paths: seq<seq<int>>, u: int)
    requires SumsFit(g, a) && Reached(g, a, seen, distance, parent, paths) && a in seen && Relaxed(g, seen, distance)
    requires Chosen(seen, distance, u) && u in seen
    ensures forall v :: 0 <= v < |g| ==> (distance[v] < INT_MAX <==> Reachable(g, a, v))
    ensures forall v :: 0 <= v < |g| && distance[v] < INT_MAX ==> IsDistance(g, a, v, distance[v])
  {
    hide SumsFit, Relaxed, IsDistance, Reachable;
    forall v | 0 <= v < |g| ensures v in seen <==> distance[v] < INT_MAX {
      assert VertexOk(g, a, seen, distance, parent, paths, v);
    }
    forall v | 0 <= v < |g|
      ensures distance[v] < INT_MAX <==> Reachable(g, a, v)
      ensures distance[v] < INT_MAX ==> IsDistance(g, a, v, distance[v])
    {
      DistancesRight(g, a, seen, distance, parent, paths, v);
    }
  }

  lemma SizeBound(visited: seq<bool>)
    ensures |VisitedSet(visited)| <= |visited|
  {
    var all := seq(|visited|, i => i);
    forall v | v in VisitedSet(visited) ensures v in all { assert all[v] == v; }
    SetAtMost(VisitedSet(visited), all);
  }

  /** The main loop: distances and parents of everything that can be reached from a. */
  method Search(g: Graph, a: nat) returns (distance: array<int>, parent: array<int>, ghost paths: seq<seq<int>>,
                                            ghost seen: set<int>)
    requires a < |g| && SumsFit(g, a)
    ensures distance.Length == parent.Length == |g|
    ensures forall v :: 0 <= v < |g| ==> (distance[v] < INT_MAX <==> Reachable(g, a, v))
    ensures forall v :: 0 <= v < |g| && distance[v] < INT_MAX ==> IsDistance(g, a, v, distance[v])
    ensures Reached(g, a, seen, distance[..], parent[..], paths)
  {
    hide SumsFit, Reached, RelaxedUpTo, Relaxed, IsDistance, Reachable, Done;
    var visited := new bool[|g|](_ => false);
    distance := new int[|g|](_ => INT_MAX);
    parent := new int[|g|];
    var current := a;
    distance[current] := 0;
    paths := seq(|g|, _ => [a]);
    SearchStart(g, a, distance[..], parent[..], paths);
    assert Chosen({}, distance[..], current);
    seen := {};
    NoneVisited(visited[..]);
    while !visited[current]
      invariant visited.Length == |g| && distance.Length == |g| && parent.Length == |g| && distance != parent
      invariant fresh(visited) && fresh(distance) && fresh(parent)
      invariant seen == VisitedSet(visited[..])
      invariant Reached(g, a, seen, distance[..], parent[..], paths) && Relaxed(g, seen, distance[..])
      invariant 0 <= current < visited.Length && Chosen(seen, distance[..], current) && (current == a || a in seen)
      decreases |g| - |seen|
    {
      InVisited(visited[..], current);
      SizeBound(visited[..]);
      current, paths := Visit(g, a, current, visited, distance, parent, paths);
      SizeBound(visited[..]);
      seen := VisitedSet(visited[..]);
    }
    InVisited(visited[..], current);
    SearchEnd(g, a, seen, distance[..], parent[..], paths, current);
  }

  /** One turn of the main loop. */
  method Visit(g: Graph, a: int, current: nat, visited: array<bool>, distance: array<int>, parent: array<int>,
               ghost paths: seq<seq<int>>) returns (next: nat, ghost paths': seq<seq<int>>)
    requires visited.Length == |g| && distance.Length == |g| && parent.Length == |g|
    requires SumsFit(g, a) && distance != parent && current < |g| && !visited[current]
    requires Reached(g, a, VisitedSet(visited[..]), distance[..], parent[..], paths)
    requires Relaxed(g, VisitedSet(visited[..]), distance[..])
    requires Chosen(VisitedSet(visited[..]), distance[..], current)
    requires current == a || a in VisitedSet(visited[..])
    modifies visited, distance, parent
    ensures VisitedSet(visited[..]) == old(VisitedSet(visited[..])) + {current}
    ensures next < |g| && a in VisitedSet(visited[..])
    ensures Reached(g, a, VisitedSet(visited[..]), distance[..], parent[..], paths')
    ensures Relaxed(g, VisitedSet(visited[..]), distance[..])
    ensures Chosen(VisitedSet(visited[..]), distance[..], next)
  {
    hide SumsFit, Reached, RelaxedUpTo, Relaxed, VisitedSet, Chosen;
    ghost var seen := VisitedSet(visited[..]);
    InVisited(visited[..], current);
    VisitedSetAfter(visited[..], current);
    RelaxedStart(g, seen, distance[..], current);
    ChosenReached(seen, distance[..], current);
    VisitStep(g, a, seen, distance[..], parent[..], paths, current);
    visited[current] := true;
    assert VisitedSet(visited[..]) == seen + {current};
    paths' := Relax(g, a, current, visited, distance, parent, paths);
    AtMostMax(g, a, seen + {current}, distance[..], parent[..], paths');
    next := Nearest(current, visited, distance);
  }

  lemma NoneVisited(visited: seq<bool>)
    requires forall v :: 0 <= v < |visited| ==> !visited[v]
    ensures VisitedSet(visited) == {}
  {}

  lemma InVisited(visited: seq<bool>, v: int)
    ensures v in VisitedSet(visited) <==> 0 <= v < |visited| && visited[v]
  {}

  lemma ChosenReached(seen: set<int>, distance: seq<int>, u: int)
    requires Chosen(seen, distance, u) && u !in seen
    ensures 0 <= u < |distance| && distance[u] < INT_MAX
  {}

  /** What is left of the whole path, with the vertices collected so far behind it, is the whole path. */
  lemma WalkedBack(front: seq<int>, v: int, path: seq<int>, whole: seq<int>)
    requires front + [v] + Reverse(path) == whole
    ensures front + Reverse(path + [v]) == whole
  {
    hide Reverse;
    ReverseSnoc(path, v);
    assert front + [v] + Reverse(path) == front + ([v] + Reverse(path));
  }

  /** One step of the parent walk: one vertex off the end of the path. */
  lemma ParentStep(g: Graph, a: int, seen: set<int>, distance: seq<int>, parent: seq<int>, paths: seq<seq<int>>, v: int)
    requires Reached(g, a, seen, distance, parent, paths) && 0 <= v < |g| && distance[v] < INT_MAX && v != a
    ensures 0 <= parent[v] < |g| && distance[parent[v]] < INT_MAX && |paths[parent[v]]| < |paths[v]|
    ensures paths[v] == paths[parent[v]] + [v]
  {
    assert VertexOk(g, a, seen, distance, parent, paths, v);
    var p := paths[v];
    assert Edge(g, p[|p| - 2], p[|p| - 1]);
    assert VertexOk(g, a, seen, distance, parent, paths, parent[v]);
    assert p == p[..|p| - 1] + [v];
  }

  lemma PathRight(g: Graph, a: int, seen: set<int>, distance: seq<int>, parent: seq<int>, paths: seq<seq<int>>, v: int)
    requires Reached(g, a, seen, distance, parent, paths) && 0 <= v < |g| && distance[v] < INT_MAX
    requires IsDistance(g, a, v, distance[v])
    ensures IsShortest(g, a, v, paths[v]) && Distinct(paths[v])
  {
    assert VertexOk(g, a, seen, distance, parent, paths, v);
  }

  /** p is a walk from a to b, and none weighs less. */
  ghost predicate IsShortest(g: Graph, a: int, b: int, p: seq<int>) {
    Walk(g, a, p) && p[|p| - 1] == b &&
    forall q :: Walk(g, a, q) && q[|q| - 1] == b ==> Weight(g, a, p) <= Weight(g, a, q)
  }

  method FindShortestPath(g: Graph, a: nat, b: nat) returns (path: seq<int>)
    requires a < |g| && b < |g| && SumsFit(g, a) && Reachable(g, a, b)
    ensures IsShortest(g, a, b, path) && Distinct(path)
  {
    hide SumsFit, Reachable, IsDistance, IsShortest;
    var distance, parent, paths, seen := Search(g, a);
    ghost var d, p := distance[..], parent[..];
    ReachedSizes(g, a, seen, d, p, paths);
    PathRight(g, a, seen, d, p, paths, b);
    assert paths[a] == [a];
    var current := b;
    path := [];
    assert paths[b] + Reverse(path) == paths[b];
    while current != a
      invariant distance[..] == d && parent[..] == p
      invariant 0 <= current < |g| && distance[current] < INT_MAX
      invariant paths[current] + Reverse(path) == paths[b]
      decreases |paths[current]|
    {
      ParentStep(g, a, seen, d, p, paths, current);
      WalkedBack(paths[parent[current]], current, path, paths[b]);
      path := path + [current];
      current := parent[current];
    }
    ReverseSnoc(path, a);
    path := path + [a];
    path := Reverse(path);
  }
}
