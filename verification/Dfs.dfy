/** The iterative depth-first search and what its visitors may rely on. */
module Dfs {
  import opened Wrappers
  import opened FiniteSets
  import opened Graphs
  import opened DfsState

  datatype DFSColor = KGrey | KBlack

  /** The colour map of the search at a state. */
  ghost predicate Coloured(visited: map<nat, DFSColor>, s: Search) {
    && (forall n :: n in visited <==> n in s.path)
    && (forall n :: n in visited ==> (visited[n] == KBlack <==> n in s.rank))
  }

  lemma OneMoreKey(visited: map<nat, DFSColor>, n: nat, color: DFSColor)
    requires n !in visited
    ensures |visited[n := color].Keys| == |visited.Keys| + 1
  {
    assert visited[n := color].Keys == visited.Keys + {n};
  }

  /** Successors still to look at on the stack. */
  ghost function Work(g: Graph, stack: Stack): nat {
    match stack
    case Empty => 0
    case Push(n, i, below) => (if n < |g| && i <= |g[n]| then |g[n]| - i + 1 else 0) + Work(g, below)
  }

  /** A search that has ended. */
  ghost predicate Finished(g: Graph, entry: nat, s: Search) {
    && Inv(g, entry, s) && PathsTraced(s) && s.stack.Empty?
    && exists k: nat :: s == StateAfter(g, entry, k)
  }

  /** There is only one way for the search to end. */
  lemma OneSearch(g: Graph, entry: nat, s: Search, t: Search)
    requires Finished(g, entry, s) && Finished(g, entry, t)
    ensures s == t
  {
    var k: nat :| s == StateAfter(g, entry, k);
    var j: nat :| t == StateAfter(g, entry, j);
    if k <= j {
      EndStateStays(g, entry, k, j);
    } else {
      EndStateStays(g, entry, j, k);
    }
  }

  /** The search as the machine of its stack and events ends it. */
  lemma EndsAs(g: Graph, entry: nat, k: nat, s: Search)
    requires ValidGraph(g) && entry < |g| && After(g, entry, k).stack.Empty? && Finished(g, entry, s)
    ensures s.trace == After(g, entry, k).trace
  {
    StateKeeps(g, entry, k);
    OneSearch(g, entry, s, StateAfter(g, entry, k));
  }

  /** The variables of the search at its state after `k` looks. */
  ghost predicate Tracks(g: Graph, entry: nat, k: nat, stack: Stack, visited: map<nat, DFSColor>, trace: seq<Event>) {
    var s := StateAfter(g, entry, k);
    s.stack == stack && s.trace == trace && Coloured(visited, s)
  }

  method DepthFirstSearch(g: Graph, entry: Option<nat>) returns (trace: seq<Event>, ghost s: Search)
    requires ValidGraph(g) && (entry.Some? ==> entry.value < |g|)
    ensures entry.None? ==> trace == []
    ensures entry.Some? ==> Finished(g, entry.value, s) && trace == s.trace
  {
    trace, s := [], Search([], Empty, [], map[], map[]);
    if entry.None? {
      return;
    }
    var visited: map<nat, DFSColor> := map[entry.value := KGrey];
    trace := trace + [Discover(entry.value)];
    var toVisit := Push(entry.value, 0, Empty);
    ghost var k: nat := 0;
    while toVisit.Push?
      invariant Tracks(g, entry.value, k, toVisit, visited, trace)
      decreases |g| - |visited.Keys|, Work(g, toVisit)
    {
      VisitedBelow(g, entry.value, k, toVisit, visited, trace);
      toVisit, visited, trace, k := Visit(g, entry.value, toVisit, visited, trace, k);
      VisitedBelow(g, entry.value, k, toVisit, visited, trace);
    }
    StateKeeps(g, entry.value, k);
    s := StateAfter(g, entry.value, k);
  }

  /** One round of the loop: the top node reports its edges to open nodes until it finds one to an
      unvisited node, which is then discovered, or has no edge left and is finished. */
  method Visit(g: Graph, ghost entry: nat, stack: Stack, visited: map<nat, DFSColor>, trace: seq<Event>, ghost k: nat)
    returns (stack': Stack, visited': map<nat, DFSColor>, trace': seq<Event>, ghost k': nat)
    requires ValidGraph(g) && entry < |g| && Tracks(g, entry, k, stack, visited, trace) && stack.Push?
    ensures Tracks(g, entry, k', stack', visited', trace')
    ensures (visited'.Keys == visited.Keys && Work(g, stack') < Work(g, stack))
            || |visited'.Keys| == |visited.Keys| + 1
  {
    var j;
    j, trace', k' := FindUnvisited(g, entry, stack, visited, trace, k);
    if j == |g[stack.node]| {
      stack', visited', trace', k' := FinishNode(g, entry, stack.(next := j), visited, trace', k');
    } else {
      stack', visited', trace', k' := VisitNext(g, entry, stack.(next := j), visited, trace', k');
    }
  }

  method FinishNode(g: Graph, ghost entry: nat, stack: Stack, visited: map<nat, DFSColor>, trace: seq<Event>,
                    ghost k: nat)
    returns (stack': Stack, visited': map<nat, DFSColor>, trace': seq<Event>, ghost k': nat)
    requires ValidGraph(g) && entry < |g| && Tracks(g, entry, k, stack, visited, trace)
    requires stack.Push? && stack.node < |g| && stack.next == |g[stack.node]|
    ensures Tracks(g, entry, k', stack', visited', trace')
    ensures visited'.Keys == visited.Keys && stack' == stack.below
  {
    FinishedOne(g, entry, k, stack, visited, trace);
    visited' := visited[stack.node := KBlack];
    trace' := trace + [Finish(stack.node)];
    stack', k' := stack.below, k + 1;
  }

  method VisitNext(g: Graph, ghost entry: nat, stack: Stack, visited: map<nat, DFSColor>, trace: seq<Event>,
                   ghost k: nat)
    returns (stack': Stack, visited': map<nat, DFSColor>, trace': seq<Event>, ghost k': nat)
    requires ValidGraph(g) && entry < |g| && Tracks(g, entry, k, stack, visited, trace)
    requires stack.Push? && stack.node < |g| && stack.next < |g[stack.node]| && g[stack.node][stack.next] !in visited
    ensures Tracks(g, entry, k', stack', visited', trace') && |visited'.Keys| == |visited.Keys| + 1
  {
    VisitedNext(g, entry, k, stack, visited, trace);
    var pNode := g[stack.node][stack.next];
    visited' := visited[pNode := KGrey];
    trace' := trace + [Discover(pNode)];
    stack', k' := Push(pNode, 0, stack.(next := stack.next + 1)), k + 1;
  }

  /** Leaving the top node after its last edge. */
  lemma FinishedOne(g: Graph, entry: nat, k: nat, stack: Stack, visited: map<nat, DFSColor>, trace: seq<Event>)
    requires ValidGraph(g) && entry < |g| && Tracks(g, entry, k, stack, visited, trace)
    requires stack.Push? && stack.node < |g| && stack.next == |g[stack.node]|
    ensures Tracks(g, entry, k + 1, stack.below, visited[stack.node := KBlack], trace + [Finish(stack.node)])
    ensures visited[stack.node := KBlack].Keys == visited.Keys
  {
    var s := StateAfter(g, entry, k);
    StateFacts(g, entry, k);
    assert StateAfter(g, entry, k + 1) == Leave(s);
  }

  /** Going on to an unvisited successor. */
  lemma VisitedNext(g: Graph, entry: nat, k: nat, stack: Stack, visited: map<nat, DFSColor>, trace: seq<Event>)
    requires ValidGraph(g) && entry < |g| && Tracks(g, entry, k, stack, visited, trace)
    requires stack.Push? && stack.node < |g| && stack.next < |g[stack.node]| && g[stack.node][stack.next] !in visited
    ensures var n := g[stack.node][stack.next];
            && Tracks(g, entry, k + 1, Push(n, 0, stack.(next := stack.next + 1)), visited[n := KGrey],
               trace + [Discover(n)])
            && |visited[n := KGrey].Keys| == |visited.Keys| + 1
  {
    var s, n := StateAfter(g, entry, k), g[stack.node][stack.next];
    StateFacts(g, entry, k);
    assert n !in s.rank;
    assert StateAfter(g, entry, k + 1) == Descend(g, s);
    OneMoreKey(visited, n, KGrey);
  }

  method FindUnvisited(g: Graph, ghost entry: nat, stack: Stack, visited: map<nat, DFSColor>, trace: seq<Event>,
                       ghost k: nat)
    returns (j: nat, trace': seq<Event>, ghost k': nat)
    requires ValidGraph(g) && entry < |g| && Tracks(g, entry, k, stack, visited, trace) && stack.Push?
    ensures stack.node < |g| && stack.next <= j <= |g[stack.node]|
    ensures j < |g[stack.node]| ==> g[stack.node][j] !in visited
    ensures Tracks(g, entry, k', stack.(next := j), visited, trace')
  {
    j, trace', k' := stack.next, trace, k;
    TopInBounds(g, entry, k, stack, visited, trace);
    var succs := g[stack.node];
    while j < |succs| && succs[j] in visited
      invariant stack.next <= j <= |succs|
      invariant Tracks(g, entry, k', stack.(next := j), visited, trace')
    {
      LookedAt(g, entry, k', stack.(next := j), visited, trace');
      if visited[succs[j]] == KGrey {
        trace' := trace' + [BackEdge(stack.node, j, succs[j])];
      }
      j, k' := j + 1, k' + 1;
    }
  }

  lemma TopInBounds(g: Graph, entry: nat, k: nat, stack: Stack, visited: map<nat, DFSColor>, trace: seq<Event>)
    requires ValidGraph(g) && entry < |g| && Tracks(g, entry, k, stack, visited, trace) && stack.Push?
    ensures stack.node < |g| && stack.next <= |g[stack.node]|
  {
    StateFacts(g, entry, k);
  }

  /** Looking at an edge to a visited node: reported if the node is open. */
  lemma LookedAt(g: Graph, entry: nat, k: nat, stack: Stack, visited: map<nat, DFSColor>, trace: seq<Event>)
    requires Tracks(g, entry, k, stack, visited, trace)
    requires stack.Push? && stack.node < |g| && stack.next < |g[stack.node]| && g[stack.node][stack.next] in visited
    ensures var t := g[stack.node][stack.next];
            Tracks(g, entry, k + 1, stack.(next := stack.next + 1), visited,
                   if visited[t] == KGrey then trace + [BackEdge(stack.node, stack.next, t)] else trace)
  {
    var s, t := StateAfter(g, entry, k), g[stack.node][stack.next];
    assert StateAfter(g, entry, k + 1) == if visited[t] == KGrey then LookGrey(g, s) else LookBlack(s);
  }

  lemma VisitedBelow(g: Graph, entry: nat, k: nat, stack: Stack, visited: map<nat, DFSColor>, trace: seq<Event>)
    requires ValidGraph(g) && entry < |g| && Tracks(g, entry, k, stack, visited, trace)
    ensures |visited.Keys| <= |g|
  {
    StateFacts(g, entry, k);
    SubsetSize(visited.Keys, Below(|g|));
  }

  // ----- completeness -----

  lemma AllVisitedFinished(g: Graph, entry: nat, s: Search)
    requires Finished(g, entry, s)
    ensures forall n :: n in s.path <==> n in s.rank
  {
    forall n: nat ensures n in s.path <==> n in s.rank {
      assert Grey(s, n) ==> n in Elems(Nodes(s.stack));
    }
  }

  /** A spine, outermost node first. */
  lemma {:induction false} SpinePath(g: Graph, entry: nat, c: Chain) returns (path: seq<nat>)
    requires Spine(g, entry, c)
    ensures EntryPath(g, entry, path, c.node)
    ensures forall n :: n in path <==> n in Elems(c)
  {
    if c.outer.Nil? {
      path := [entry];
    } else {
      path := SpinePath(g, entry, c.outer);
      ExtendPath(g, entry, path, c.outer.node, c.node);
      path := path + [c.node];
    }
  }

  lemma {:induction false} ReachableIsVisited(g: Graph, entry: nat, s: Search, path: seq<nat>)
    requires Finished(g, entry, s) && IsPath(g, path) && path[0] == entry
    ensures path[|path| - 1] in s.rank
  {
    var last := path[|path| - 1];
    if |path| == 1 {
      AllVisitedFinished(g, entry, s);
    } else {
      var u := path[|path| - 2];
      assert IsPath(g, path[..|path| - 1]);
      ReachableIsVisited(g, entry, s, path[..|path| - 1]);
      var j :| 0 <= j < |g[u]| && g[u][j] == last;
      assert BlackEdge(g, s, u, j);
      AllVisitedFinished(g, entry, s);
    }
  }

  /** The search visits exactly the nodes reachable from the entry: each is discovered once and finished
      once, and the events nest like brackets. */
  lemma SearchIsComplete(g: Graph, entry: nat, s: Search)
    requires Finished(g, entry, s)
    ensures Play(s.trace) == Some(Nil)
    ensures forall n :: n in s.rank <==> Reachable(g, entry, n)
    ensures forall n :: multiset(s.trace)[Discover(n)] == if Reachable(g, entry, n) then 1 else 0
    ensures forall n :: multiset(s.trace)[Finish(n)] == if Reachable(g, entry, n) then 1 else 0
  {
    forall n: nat ensures n in s.rank <==> Reachable(g, entry, n) {
      if n in s.rank {
        var path := SpinePath(g, entry, s.path[n]);
      }
      if Reachable(g, entry, n) {
        var path :| EntryPath(g, entry, path, n);
        ReachableIsVisited(g, entry, s, path);
      }
    }
    AllVisitedFinished(g, entry, s);
  }

  // ----- back edges -----

  /** An edge of a reachable node is reported exactly once if its target is the node itself or encloses it
      in the search tree, and is not reported otherwise. Enclosing nodes are those finished no earlier. */
  lemma BackEdgesAreExact(g: Graph, entry: nat, s: Search, n: nat, j: nat)
    requires Finished(g, entry, s) && Reachable(g, entry, n) && n < |g| && j < |g[n]|
    ensures n in s.path && n in s.rank && g[n][j] in s.rank
    ensures Reports(g, s, n, j) == if g[n][j] in Elems(s.path[n]) then 1 else 0
    ensures g[n][j] in Elems(s.path[n]) <==> s.rank[n] <= s.rank[g[n][j]]
  {
    SearchIsComplete(g, entry, s);
    var t := g[n][j];
    assert BlackEdge(g, s, n, j);
    AllVisitedFinished(g, entry, s);
    if t in Elems(s.path[n]) {
      assert Encloses(s, t, n);
    }
  }

  /** Nothing else is reported. */
  lemma OnlyEdgesAreReported(g: Graph, entry: nat, s: Search, u: nat, j: nat, t: nat)
    requires Finished(g, entry, s) && BackEdge(u, j, t) in s.trace
    ensures u < |g| && j < |g[u]| && t == g[u][j] && Reachable(g, entry, u)
  {
    SearchIsComplete(g, entry, s);
    assert WhiteEdge(g, s, u, j);
    AllVisitedFinished(g, entry, s);
  }

  /** An edge that is not reported. */
  ghost predicate ForwardEdge(g: Graph, s: Search, u: nat, w: nat) {
    exists j :: 0 <= u < |g| && 0 <= j < |g[u]| && g[u][j] == w && Reports(g, s, u, j) == 0
  }

  ghost predicate ForwardWalk(g: Graph, s: Search, walk: seq<nat>) {
    |walk| > 0 && (|walk| > 1 ==> ForwardEdge(g, s, walk[0], walk[1]) && ForwardWalk(g, s, walk[1..]))
  }

  /** Without the reported edges the reachable graph is acyclic, and reverse post-order is a topological
      order of it: along every walk the finish rank falls. */
  lemma {:induction false} ForwardWalksDescend(g: Graph, entry: nat, s: Search, walk: seq<nat>)
    requires Finished(g, entry, s) && ForwardWalk(g, s, walk) && Reachable(g, entry, walk[0])
    ensures walk[0] in s.rank && walk[|walk| - 1] in s.rank
    ensures |walk| > 1 ==> s.rank[walk[|walk| - 1]] < s.rank[walk[0]] && walk[|walk| - 1] != walk[0]
  {
    SearchIsComplete(g, entry, s);
    if |walk| > 1 {
      var u, w := walk[0], walk[1];
      var j :| 0 <= u < |g| && 0 <= j < |g[u]| && g[u][j] == w && Reports(g, s, u, j) == 0;
      BackEdgesAreExact(g, entry, s, u, j);
      ForwardWalksDescend(g, entry, s, walk[1..]);
    }
  }

  lemma OnSpine(g: Graph, entry: nat, s: Search, d: nat, n: nat)
    requires Finished(g, entry, s) && n in s.path && Dominates(g, entry, d, n)
    ensures d in Elems(s.path[n]) && d in s.path && Encloses(s, d, n)
  {
    var path := SpinePath(g, entry, s.path[n]);
  }

  /** A strict dominator of a reachable node comes before it in reverse post-order. */
  lemma DominatorFinishesLater(g: Graph, entry: nat, s: Search, d: nat, n: nat)
    requires Finished(g, entry, s) && Reachable(g, entry, n) && Dominates(g, entry, d, n) && d != n
    ensures n in s.rank && d in s.rank && s.rank[n] < s.rank[d]
  {
    ReachableIsRanked(g, entry, s, n);
    OnSpine(g, entry, s, d, n);
    assert Encloses(s, d, n);
    RankedApart(g, entry, s, d, n);
  }

  lemma ReachableIsRanked(g: Graph, entry: nat, s: Search, n: nat)
    requires Finished(g, entry, s) && Reachable(g, entry, n)
    ensures n in s.rank && n in s.path
  {
    SearchIsComplete(g, entry, s);
  }

  lemma RankedApart(g: Graph, entry: nat, s: Search, d: nat, n: nat)
    requires Finished(g, entry, s) && d in s.path && n in s.rank && d != n
    ensures d in s.rank && s.rank[n] != s.rank[d]
  {
    AllVisitedFinished(g, entry, s);
  }

  // ----- orders -----

  /** The order in which the search discovers nodes. */
  ghost predicate IsSearchOrder(g: Graph, entry: nat, order: seq<nat>) {
    exists s :: Finished(g, entry, s) && order == DiscoverOrder(s.trace)
  }

  /** Each reachable node once, the entry first, every other node after one of its predecessors. */
  ghost predicate IsPreOrder(g: Graph, entry: nat, order: seq<nat>) {
    && IsSearchOrder(g, entry, order) && GrowsFrom(g, entry, order)
    && (forall n: nat :: multiset(order)[n] == if Reachable(g, entry, n) then 1 else 0)
  }

  /** There is only one such order. */
  lemma OneOrder(g: Graph, entry: nat, a: seq<nat>, b: seq<nat>)
    requires IsSearchOrder(g, entry, a) && IsSearchOrder(g, entry, b)
    ensures a == b
  {
    var s :| Finished(g, entry, s) && a == DiscoverOrder(s.trace);
    var t :| Finished(g, entry, t) && b == DiscoverOrder(t.trace);
    OneSearch(g, entry, s, t);
  }

  method PreOrder(g: Graph, entry: Option<nat>) returns (order: seq<nat>)
    requires ValidGraph(g) && (entry.Some? ==> entry.value < |g|)
    ensures entry.None? ==> order == []
    ensures entry.Some? ==> IsPreOrder(g, entry.value, order)
  {
    var trace; ghost var s;
    trace, s := DepthFirstSearch(g, entry);
    order := [];
    for i := 0 to |trace|
      invariant order == DiscoverOrder(trace[..i])
    {
      assert trace[..i + 1][..i] == trace[..i];
      if trace[i].Discover? {
        order := order + [trace[i].node];
      }
    }
    assert trace[..|trace|] == trace;
    if entry.Some? {
      SearchIsComplete(g, entry.value, s);
      AllVisitedFinished(g, entry.value, s);
    }
  }

  method PostOrder(g: Graph, entry: Option<nat>) returns (order: seq<nat>, ghost s: Search)
    requires ValidGraph(g) && (entry.Some? ==> entry.value < |g|)
    ensures entry.None? ==> order == []
    ensures entry.Some? ==> Finished(g, entry.value, s) && order == s.post
  {
    var trace;
    trace, s := DepthFirstSearch(g, entry);
    order := [];
    for i := 0 to |trace|
      invariant order == FinishOrder(trace[..i])
    {
      assert trace[..i + 1][..i] == trace[..i];
      if trace[i].Finish? {
        order := order + [trace[i].node];
      }
    }
    assert trace[..|trace|] == trace;
  }

  /** The finished nodes, last one first. */
  ghost predicate IsReversePostOrder(g: Graph, entry: nat, order: seq<nat>, s: Search) {
    && Finished(g, entry, s) && |order| == |s.post|
    && (forall i :: 0 <= i < |order| ==> order[i] == s.post[|order| - 1 - i])
  }

  method ReversePostOrder(g: Graph, entry: Option<nat>) returns (order: seq<nat>, ghost s: Search)
    requires ValidGraph(g) && (entry.Some? ==> entry.value < |g|)
    ensures entry.None? ==> order == []
    ensures entry.Some? ==> IsReversePostOrder(g, entry.value, order, s)
  {
    var bbs;
    bbs, s := PostOrder(g, entry);
    order := Reversed(bbs);
  }

  method Reversed(bbs: seq<nat>) returns (order: seq<nat>)
    ensures |order| == |bbs| && forall k :: 0 <= k < |bbs| ==> order[k] == bbs[|bbs| - 1 - k]
  {
    order := [];
    for i := 0 to |bbs|
      invariant |order| == i && forall k :: 0 <= k < i ==> order[k] == bbs[i - 1 - k]
    {
      order := [bbs[i]] + order;
    }
  }

  /** The order lists reachable nodes, each once; a strict dominator stands before its node, and so does
      the source of an edge that is not a back edge. */
  lemma ReversePostOrderFacts(g: Graph, entry: nat, order: seq<nat>, s: Search, i: nat, k: nat)
    requires IsReversePostOrder(g, entry, order, s) && i < |order| && k < |order|
    ensures Reachable(g, entry, order[i])
    ensures order[i] == order[k] ==> i == k
    ensures Dominates(g, entry, order[i], order[k]) ==> i <= k
    ensures ForwardEdge(g, s, order[i], order[k]) ==> i < k
  {
    SearchIsComplete(g, entry, s);
    var x, y := |order| - 1 - i, |order| - 1 - k;
    assert s.rank[s.post[x]] == x && s.rank[s.post[y]] == y;
    if Dominates(g, entry, order[i], order[k]) && order[i] != order[k] {
      DominatorFinishesLater(g, entry, s, order[i], order[k]);
    }
    if ForwardEdge(g, s, order[i], order[k]) {
      ForwardWalksDescend(g, entry, s, [order[i], order[k]]);
    }
  }
}
