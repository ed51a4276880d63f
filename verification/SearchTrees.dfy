/** The search tree of a finished depth-first search, in DFS times. */
module SearchTrees {
  import opened Graphs
  import opened DfsState
  import opened Dfs
  import opened Dominators
  import opened TreeDominance

  // ----- what the events say -----

  ghost predicate Balanced(trace: seq<Event>) {
    Play(trace).Some? && forall n :: multiset(DiscoverOrder(trace))[n] <= 1
  }

  lemma BalancedFront(trace: seq<Event>)
    requires Balanced(trace) && trace != []
    ensures Balanced(trace[..|trace| - 1])
    ensures trace[|trace| - 1].Discover? ==> trace[|trace| - 1].node !in DiscoverOrder(trace[..|trace| - 1])
  {
    var front, e := trace[..|trace| - 1], trace[|trace| - 1];
    forall n ensures multiset(DiscoverOrder(front))[n] <= 1 {
      assert multiset(DiscoverOrder(trace))[n] <= 1;
    }
    if e.Discover? {
      assert multiset(DiscoverOrder(trace))[e.node] <= 1;
      assert e.node in DiscoverOrder(front) <==> e.node in multiset(DiscoverOrder(front));
    }
  }

  lemma {:induction false} BalancedPrefix(trace: seq<Event>, k: nat)
    requires Balanced(trace) && k <= |trace|
    ensures Balanced(trace[..k])
  {
    if k == |trace| {
      assert trace[..k] == trace;
    } else {
      BalancedFront(trace);
      BalancedPrefix(trace[..|trace| - 1], k);
      assert trace[..|trace| - 1][..k] == trace[..k];
    }
  }

  /** Open and finished nodes have been discovered. */
  lemma {:induction false} OpenIsDiscovered(trace: seq<Event>, n: nat)
    requires Play(trace).Some?
    ensures n in Elems(Play(trace).value) ==> n in DiscoverOrder(trace)
    ensures n in FinishOrder(trace) ==> n in DiscoverOrder(trace)
  {
    if trace != [] {
      OpenIsDiscovered(trace[..|trace| - 1], n);
    }
  }

  /** A discovered node is open until it is finished. */
  lemma {:induction false} DiscoveredIsOpen(trace: seq<Event>, n: nat)
    requires Play(trace).Some? && n in DiscoverOrder(trace) && n !in FinishOrder(trace)
    ensures n in Elems(Play(trace).value)
  {
    var front, e := trace[..|trace| - 1], trace[|trace| - 1];
    if e != Discover(n) {
      DiscoveredIsOpen(front, n);
    }
  }

  /** A node that is open now and had been discovered earlier was open then. */
  lemma {:induction false} OpenEarlier(trace: seq<Event>, k: nat, n: nat)
    requires Balanced(trace) && k <= |trace| && n in Elems(Play(trace).value) && n in DiscoverOrder(trace[..k])
    ensures Play(trace[..k]).Some? && n in Elems(Play(trace[..k]).value)
  {
    if k == |trace| {
      assert trace[..k] == trace;
    } else {
      var front, e := trace[..|trace| - 1], trace[|trace| - 1];
      BalancedFront(trace);
      assert front[..k] == trace[..k];
      DiscoveredBefore(front, k, n);
      OpenEarlier(front, k, n);
    }
  }

  lemma {:induction false} DiscoveredBefore(trace: seq<Event>, k: nat, n: nat)
    requires k <= |trace|
    ensures n in DiscoverOrder(trace[..k]) ==> n in DiscoverOrder(trace)
    ensures n in FinishOrder(trace[..k]) ==> n in FinishOrder(trace)
  {
    if k == |trace| {
      assert trace[..k] == trace;
    } else {
      DiscoveredBefore(trace[..|trace| - 1], k, n);
      assert trace[..|trace| - 1][..k] == trace[..k];
    }
  }

  /** Every tail of the open nodes is what was open when its first node was discovered. */
  ghost predicate TailsTraced(trace: seq<Event>, c: Chain) {
    c.Link? ==> OpenPath(trace, c.node) == c && TailsTraced(trace, c.outer)
  }

  lemma {:induction false} TailsStay(trace: seq<Event>, e: Event, c: Chain)
    requires TailsTraced(trace, c) && forall n :: n in Elems(c) ==> e != Discover(n)
    ensures TailsTraced(trace + [e], c)
  {
    if c.Link? {
      assert (trace + [e])[..|trace|] == trace;
      TailsStay(trace, e, c.outer);
    }
  }

  lemma {:induction false} OpenTails(trace: seq<Event>)
    requires Balanced(trace)
    ensures TailsTraced(trace, Play(trace).value)
  {
    if trace != [] {
      var front, e := trace[..|trace| - 1], trace[|trace| - 1];
      assert front + [e] == trace;
      BalancedFront(trace);
      OpenTails(front);
      var open := Play(front).value;
      forall n | n in Elems(if e.Finish? then open.outer else open) ensures e != Discover(n) {
        OpenIsDiscovered(front, n);
      }
      TailsStay(front, e, if e.Finish? then open.outer else open);
    }
  }

  // ----- the moment of discovery -----

  lemma {:induction false} OrderAt(trace: seq<Event>, t: nat) returns (k: nat)
    requires Balanced(trace) && t < |DiscoverOrder(trace)|
    ensures k < |trace| && trace[k] == Discover(DiscoverOrder(trace)[t])
    ensures DiscoverOrder(trace[..k]) == DiscoverOrder(trace)[..t]
  {
    var front, e := trace[..|trace| - 1], trace[|trace| - 1];
    BalancedFront(trace);
    if t < |DiscoverOrder(front)| {
      k := OrderAt(front, t);
      assert front[..k] == trace[..k];
      assert DiscoverOrder(front)[..t] == DiscoverOrder(trace)[..t];
    } else {
      k := |trace| - 1;
      assert DiscoverOrder(trace) == DiscoverOrder(front) + [e.node];
    }
  }

  lemma {:induction false} PathAtDiscovery(trace: seq<Event>, k: nat, n: nat)
    requires Balanced(trace) && k < |trace| && trace[k] == Discover(n)
    ensures Play(trace[..k]).Some? && OpenPath(trace, n) == Link(n, Play(trace[..k]).value)
  {
    var front, e := trace[..|trace| - 1], trace[|trace| - 1];
    BalancedFront(trace);
    if k < |trace| - 1 {
      assert front[..k] == trace[..k];
      DiscoveredFrom(front, k, n);
      PathAtDiscovery(front, k, n);
    }
  }

  lemma {:induction false} DiscoveredFrom(trace: seq<Event>, k: nat, n: nat)
    requires k < |trace| && trace[k] == Discover(n)
    ensures n in DiscoverOrder(trace)
  {
    if k < |trace| - 1 {
      DiscoveredFrom(trace[..|trace| - 1], k, n);
    }
  }

  lemma {:induction false} OpenPathStays(trace: seq<Event>, k: nat, n: nat)
    requires Balanced(trace) && k <= |trace| && n in DiscoverOrder(trace[..k])
    ensures OpenPath(trace, n) == OpenPath(trace[..k], n)
  {
    if k == |trace| {
      assert trace[..k] == trace;
    } else {
      var front := trace[..|trace| - 1];
      BalancedFront(trace);
      assert front[..k] == trace[..k];
      DiscoveredBefore(front, k, n);
      OpenPathStays(front, k, n);
    }
  }

  /** What was open when a node was discovered, besides it, is what was open when the next of them was. */
  lemma PathTail(trace: seq<Event>, k: nat, n: nat)
    requires Balanced(trace) && k < |trace| && trace[k] == Discover(n)
    ensures OpenPath(trace, n).Link? && OpenPath(trace, n).node == n
    ensures var rest := OpenPath(trace, n).outer;
            rest.Link? ==> rest.node in DiscoverOrder(trace[..k]) && OpenPath(trace, rest.node) == rest
  {
    PathAtDiscovery(trace, k, n);
    BalancedPrefix(trace, k);
    OpenTails(trace[..k]);
    var rest := OpenPath(trace, n).outer;
    if rest.Link? {
      OpenIsDiscovered(trace[..k], rest.node);
      OpenPathStays(trace, k, rest.node);
    }
  }

  // ----- the tree -----

  ghost predicate IsSearch(g: Graph, entry: nat, s: Search, order: seq<nat>) {
    Finished(g, entry, s) && order == DiscoverOrder(s.trace)
  }

  lemma SearchIsBalanced(g: Graph, entry: nat, s: Search)
    requires Finished(g, entry, s)
    ensures Balanced(s.trace)
  {
  }

  lemma {:induction false} IndexOf(order: seq<nat>, n: nat) returns (i: nat)
    requires n in order
    ensures i < |order| && order[i] == n
  {
    i :| 0 <= i < |order| && order[i] == n;
  }

  /** The parent of a node is the next open node when it is discovered. */
  ghost predicate ParentAt(trace: seq<Event>, order: seq<nat>, t: nat, p: nat)
    requires t < |order|
  {
    var c := OpenPath(trace, order[t]);
    && p < t && c.Link? && c.node == order[t]
    && c.outer.Link? && order[p] == c.outer.node && OpenPath(trace, order[p]) == c.outer
  }

  ghost predicate IsParents(trace: seq<Event>, order: seq<nat>, par: seq<nat>) {
    |par| == |order| && forall t :: 0 < t < |order| ==> ParentAt(trace, order, t, par[t])
  }

  lemma HasParent(g: Graph, entry: nat, s: Search, order: seq<nat>, t: nat) returns (p: nat)
    requires IsSearch(g, entry, s, order) && 0 < t < |order|
    ensures ParentAt(s.trace, order, t, p)
  {
    SearchIsBalanced(g, entry, s);
    var k := OrderAt(s.trace, t);
    PathTail(s.trace, k, order[t]);
    NotEntry(g, entry, s, order, t);
    p := IndexOf(order[..t], OpenPath(s.trace, order[t]).outer.node);
  }

  lemma NotEntry(g: Graph, entry: nat, s: Search, order: seq<nat>, t: nat)
    requires IsSearch(g, entry, s, order) && 0 < t < |order|
    ensures OpenPath(s.trace, order[t]).Link? && OpenPath(s.trace, order[t]).outer.Link?
  {
    assert order[t] in order;
    assert Spine(g, entry, s.path[order[t]]);
    assert multiset(order)[entry] <= 1;
    if order[t] == entry {
      Twice(order, 0, t);
    }
  }

  lemma {:induction false} Parents(g: Graph, entry: nat, s: Search, order: seq<nat>, n: nat) returns (par: seq<nat>)
    requires IsSearch(g, entry, s, order) && n <= |order|
    ensures |par| == n && forall t :: 0 < t < n ==> ParentAt(s.trace, order, t, par[t])
  {
    if n == 0 {
      par := [];
    } else {
      var front := Parents(g, entry, s, order, n - 1);
      var p: nat := 0;
      if n > 1 {
        p := HasParent(g, entry, s, order, n - 1);
      }
      par := front + [p];
    }
  }

  /** Above in the tree are the nodes that were open at the discovery. */
  lemma {:induction false} TreeUpIsOpen(trace: seq<Event>, order: seq<nat>, par: seq<nat>, a: nat, x: nat)
    requires IsParents(trace, order, par) && ValidTree(par) && x < |order| && a < |order|
    requires forall i, j :: 0 <= i < |order| && 0 <= j < |order| && order[i] == order[j] ==> i == j
    requires OpenPath(trace, order[0]) == Link(order[0], Nil)
    ensures TreeUp(par, a, x) <==> order[a] in Elems(OpenPath(trace, order[x]))
    decreases x
  {
    if x > 0 {
      assert ParentAt(trace, order, x, par[x]);
      TreeUpIsOpen(trace, order, par, a, par[x]);
    }
  }

  /** The graph in DFS times. */
  ghost predicate InTimes(g: Graph, order: seq<nat>, gt: Graph) {
    && |gt| == |order| && (forall a :: 0 <= a < |order| ==> order[a] < |g|)
    && (forall a, b :: 0 <= a < |order| && 0 <= b < |order| ==> (b in gt[a] <==> order[b] in g[order[a]]))
  }

  /** A search, its order, and the parents in it. */
  ghost predicate IsTreeOf(g: Graph, entry: nat, s: Search, order: seq<nat>, par: seq<nat>) {
    && IsSearch(g, entry, s, order) && IsParents(s.trace, order, par) && ValidTree(par)
    && (forall i, j :: 0 <= i < |order| && 0 <= j < |order| && order[i] == order[j] ==> i == j)
    && order != [] && OpenPath(s.trace, order[0]) == Link(order[0], Nil)
  }

  lemma FirstIsAlone(g: Graph, entry: nat, s: Search, order: seq<nat>)
    requires IsSearch(g, entry, s, order)
    ensures order != [] && OpenPath(s.trace, order[0]) == Link(order[0], Nil)
  {
    SearchIsBalanced(g, entry, s);
    var k := OrderAt(s.trace, 0);
    PathAtDiscovery(s.trace, k, order[0]);
    var open := Play(s.trace[..k]).value;
    if open.Link? {
      OpenIsDiscovered(s.trace[..k], open.node);
    }
  }

  lemma OrderIsDistinct(g: Graph, entry: nat, s: Search, order: seq<nat>, i: nat, j: nat)
    requires IsSearch(g, entry, s, order) && i < |order| && j < |order| && order[i] == order[j]
    ensures i == j
  {
    assert multiset(order)[order[i]] <= 1;
    if i < j {
      Twice(order, i, j);
    } else if j < i {
      Twice(order, j, i);
    }
  }

  lemma TreeOf(g: Graph, entry: nat, s: Search, order: seq<nat>) returns (par: seq<nat>)
    requires IsSearch(g, entry, s, order)
    ensures IsTreeOf(g, entry, s, order, par)
  {
    par := Parents(g, entry, s, order, |order|);
    FirstIsAlone(g, entry, s, order);
    forall i, j | 0 <= i < |order| && 0 <= j < |order| && order[i] == order[j] ensures i == j {
      OrderIsDistinct(g, entry, s, order, i, j);
    }
    forall t | 0 < t < |par| ensures par[t] < t {
      assert ParentAt(s.trace, order, t, par[t]);
    }
  }

  lemma TreeEdge(g: Graph, entry: nat, s: Search, order: seq<nat>, par: seq<nat>, t: nat)
    requires IsTreeOf(g, entry, s, order, par) && 0 < t < |order|
    ensures order[par[t]] < |g| && order[t] in g[order[par[t]]]
  {
    assert ParentAt(s.trace, order, t, par[t]);
    assert order[t] in order && order[par[t]] in order;
    assert Spine(g, entry, s.path[order[t]]) && s.path[order[t]] == OpenPath(s.trace, order[t]);
  }

  /** What is discovered before a node and finished after it is open at its discovery. */
  lemma OpenAcross(g: Graph, entry: nat, s: Search, order: seq<nat>, p: nat, w: nat)
    requires IsSearch(g, entry, s, order) && p < w < |order|
    requires order[p] in s.rank && order[w] in s.rank && s.rank[order[w]] < s.rank[order[p]]
    ensures order[p] in Elems(OpenPath(s.trace, order[w]))
  {
    SearchIsBalanced(g, entry, s);
    var k := OrderAt(s.trace, w);
    BalancedPrefix(s.trace, k);
    PathAtDiscovery(s.trace, k, order[w]);
    var prefix := s.trace[..k];
    assert order[p] == order[..w][p] && order[p] in DiscoverOrder(prefix);
    if order[p] in FinishOrder(prefix) {
      FinishedFirst(g, entry, s, k, order[p], order[w]);
      NotYet(g, entry, s, order, w, k);
    } else {
      DiscoveredIsOpen(prefix, order[p]);
    }
  }

  lemma NotYet(g: Graph, entry: nat, s: Search, order: seq<nat>, w: nat, k: nat)
    requires IsSearch(g, entry, s, order) && w < |order| && k <= |s.trace| && DiscoverOrder(s.trace[..k]) == order[..w]
    ensures order[w] !in FinishOrder(s.trace[..k])
  {
    SearchIsBalanced(g, entry, s);
    BalancedPrefix(s.trace, k);
    OpenIsDiscovered(s.trace[..k], order[w]);
    if order[w] in order[..w] {
      var i :| 0 <= i < w && order[i] == order[w];
      OrderIsDistinct(g, entry, s, order, i, w);
    }
  }

  /** What has been finished early has a lower rank. */
  lemma FinishedFirst(g: Graph, entry: nat, s: Search, k: nat, a: nat, b: nat)
    requires Finished(g, entry, s) && k <= |s.trace| && a in FinishOrder(s.trace[..k])
    requires a in s.rank && b in s.rank && s.rank[b] < s.rank[a]
    ensures b in FinishOrder(s.trace[..k])
  {
    FinishPrefix(s.trace, k);
    var early := FinishOrder(s.trace[..k]);
    var i :| 0 <= i < |early| && early[i] == a;
    assert s.post[i] == a && s.rank[s.post[i]] == i;
    assert early[s.rank[b]] == s.post[s.rank[b]];
  }

  lemma {:induction false} FinishPrefix(trace: seq<Event>, k: nat)
    requires k <= |trace|
    ensures FinishOrder(trace[..k]) <= FinishOrder(trace)
  {
    if k == |trace| {
      assert trace[..k] == trace;
    } else {
      FinishPrefix(trace[..|trace| - 1], k);
      assert trace[..|trace| - 1][..k] == trace[..k];
    }
  }

  lemma EdgeGoesDown(g: Graph, entry: nat, s: Search, order: seq<nat>, par: seq<nat>, p: nat, w: nat)
    requires IsTreeOf(g, entry, s, order, par) && p < w < |order| && order[p] < |g| && order[w] in g[order[p]]
    ensures TreeUp(par, p, w)
  {
    var n := order[p];
    var j :| 0 <= j < |g[n]| && g[n][j] == order[w];
    assert n in order && order[w] in order;
    AllVisitedFinished(g, entry, s);
    VisitedIsReachable(g, entry, s, n);
    BackEdgesAreExact(g, entry, s, n, j);
    if order[w] in Elems(s.path[n]) {
      TreeUpIsOpen(s.trace, order, par, w, p);
      TreeUpIsEarlier(par, w, p);
    } else {
      OpenAcross(g, entry, s, order, p, w);
      TreeUpIsOpen(s.trace, order, par, p, w);
    }
  }

  lemma VisitedIsReachable(g: Graph, entry: nat, s: Search, n: nat)
    requires Finished(g, entry, s) && n in s.path
    ensures Reachable(g, entry, n)
  {
    var path := SpinePath(g, entry, s.path[n]);
  }

  lemma BetweenIsBelow(g: Graph, entry: nat, s: Search, order: seq<nat>, par: seq<nat>, a: nat, y: nat, x: nat)
    requires IsTreeOf(g, entry, s, order, par) && a <= y <= x < |order| && TreeUp(par, a, x)
    ensures TreeUp(par, a, y)
  {
    if a < y < x {
      SearchIsBalanced(g, entry, s);
      TreeUpIsOpen(s.trace, order, par, a, x);
      TreeUpIsOpen(s.trace, order, par, a, y);
      var k := OrderAt(s.trace, x);
      var j := OrderAt(s.trace, y);
      PathAtDiscovery(s.trace, k, order[x]);
      PathAtDiscovery(s.trace, j, order[y]);
      OpenBetween(g, entry, s, order, a, y, x, j, k);
    }
  }

  lemma OpenBetween(g: Graph, entry: nat, s: Search, order: seq<nat>, a: nat, y: nat, x: nat, j: nat, k: nat)
    requires IsSearch(g, entry, s, order) && a < y < x < |order| && j <= |s.trace| && k <= |s.trace|
    requires DiscoverOrder(s.trace[..k]) == order[..x] && DiscoverOrder(s.trace[..j]) == order[..y]
    requires Play(s.trace[..k]).Some? && order[a] in Elems(Play(s.trace[..k]).value)
    ensures Play(s.trace[..j]).Some? && order[a] in Elems(Play(s.trace[..j]).value)
  {
    SearchIsBalanced(g, entry, s);
    BalancedPrefix(s.trace, k);
    if k < j {
      assert s.trace[..j][..k] == s.trace[..k];
      DiscoverPrefix(s.trace[..j], k);
    }
    assert s.trace[..k][..j] == s.trace[..j];
    assert order[..y][a] == order[a];
    OpenEarlier(s.trace[..k], j, order[a]);
  }

  lemma {:induction false} DiscoverPrefix(trace: seq<Event>, k: nat)
    requires k <= |trace|
    ensures |DiscoverOrder(trace[..k])| <= |DiscoverOrder(trace)|
  {
    if k == |trace| {
      assert trace[..k] == trace;
    } else {
      DiscoverPrefix(trace[..|trace| - 1], k);
      assert trace[..|trace| - 1][..k] == trace[..k];
    }
  }

  /** In DFS times the parents make a search tree of the graph. */
  lemma IsSearchTree(g: Graph, entry: nat, s: Search, order: seq<nat>, par: seq<nat>, gt: Graph)
    requires IsTreeOf(g, entry, s, order, par) && InTimes(g, order, gt)
    ensures SearchTree(gt, par)
  {
    forall t | 0 < t < |gt| ensures t in gt[par[t]] {
      TreeEdge(g, entry, s, order, par, t);
    }
    forall p: nat, w: nat ensures EdgeDown(gt, par, p, w) {
      if p < w < |gt| && w in gt[p] {
        EdgeGoesDown(g, entry, s, order, par, p, w);
      }
    }
    forall a: nat, y: nat, x: nat ensures Between(par, a, y, x) {
      if a <= y <= x < |par| && TreeUp(par, a, x) {
        BetweenIsBelow(g, entry, s, order, par, a, y, x);
      }
    }
  }
}
