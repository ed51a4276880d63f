/** The dominator tree of a graph: built over the DFS order, asked by a walk down the tree. */
module Dominators {
  import opened Wrappers
  import opened Graphs
  import opened DfsState
  import opened Dfs
  import opened DomSpec
  import opened DomTrees

  // ----- the ancestor relation -----

  lemma {:induction false} AncestorIsEarlier(preds: seq<seq<nat>>, d: nat, v: nat)
    requires ValidPreds(preds) && Discovered(preds) && v < |preds| && Ancestor(preds, d, v)
    ensures d <= v
  {
    if d != v {
      IdomIsEarlier(preds, v);
      AncestorIsEarlier(preds, d, Idom(preds, v));
    }
  }

  lemma {:induction false} EntryIsAbove(preds: seq<seq<nat>>, v: nat)
    requires ValidPreds(preds) && Discovered(preds) && v < |preds|
    ensures Ancestor(preds, 0, v)
    decreases v
  {
    if v > 0 {
      IdomIsEarlier(preds, v);
      EntryIsAbove(preds, Idom(preds, v));
    }
  }

  lemma {:induction false} AncestorTransitive(preds: seq<seq<nat>>, a: nat, b: nat, c: nat)
    requires ValidPreds(preds) && Discovered(preds) && b < |preds| && c < |preds|
    requires Ancestor(preds, a, b) && Ancestor(preds, b, c)
    ensures Ancestor(preds, a, c)
    decreases c
  {
    if b != c {
      IdomIsEarlier(preds, c);
      AncestorTransitive(preds, a, b, Idom(preds, c));
    }
  }

  /** The ancestors of a node form a chain. */
  lemma {:induction false} AncestorsAreOrdered(preds: seq<seq<nat>>, a: nat, b: nat, v: nat)
    requires ValidPreds(preds) && Discovered(preds) && v < |preds|
    requires Ancestor(preds, a, v) && Ancestor(preds, b, v)
    ensures a < |preds| && b < |preds| && (Ancestor(preds, a, b) || Ancestor(preds, b, a))
    decreases v
  {
    AncestorIsEarlier(preds, a, v);
    AncestorIsEarlier(preds, b, v);
    if a != v && b != v {
      IdomIsEarlier(preds, v);
      AncestorsAreOrdered(preds, a, b, Idom(preds, v));
    }
  }

  // ----- the query -----

  /** The child of `d` on the way down to `v`. */
  lemma {:induction false} ChildTowards(preds: seq<seq<nat>>, d: nat, v: nat) returns (c: nat)
    requires ValidPreds(preds) && Discovered(preds) && v < |preds| && Ancestor(preds, d, v) && d != v
    ensures 0 < c < |preds| && Idom(preds, c) == d && Ancestor(preds, c, v)
    decreases v
  {
    IdomIsEarlier(preds, v);
    if Idom(preds, v) == d {
      c := v;
    } else {
      c := ChildTowards(preds, d, Idom(preds, v));
    }
  }

  lemma KidsAreBelow(preds: seq<seq<nat>>, tree: map<nat, seq<nat>>, d: nat, c: nat)
    requires ValidPreds(preds) && IsTree(preds, tree)
    ensures c in Children(tree, d) <==> 0 < c < |preds| && Idom(preds, c) == d
  {
    assert Listed(preds, tree, |preds|, d, c);
    assert c in Children(tree, d) <==> c in multiset(Children(tree, d));
  }

  predicate Within(nodes: seq<nat>, lo: nat, hi: nat) {
    forall i :: 0 <= i < |nodes| ==> lo <= nodes[i] < hi
  }

  lemma KidsAfter(preds: seq<seq<nat>>, tree: map<nat, seq<nat>>, d: nat)
    requires ValidPreds(preds) && Discovered(preds) && IsTree(preds, tree)
    ensures Within(Children(tree, d), d + 1, |preds|)
  {
    forall i | 0 <= i < |Children(tree, d)| ensures d < Children(tree, d)[i] < |preds| {
      KidsAreBelow(preds, tree, d, Children(tree, d)[i]);
      IdomIsEarlier(preds, Children(tree, d)[i]);
    }
  }

  /** How many nodes hang below the listed ones, themselves included. */
  ghost function Weight(preds: seq<seq<nat>>, tree: map<nat, seq<nat>>, nodes: seq<nat>, lo: nat): nat
    requires ValidPreds(preds) && Discovered(preds) && IsTree(preds, tree) && Within(nodes, lo, |preds|)
    decreases |preds| - lo, |nodes|
  {
    if nodes == [] then 0
    else
      var x := nodes[|nodes| - 1];
      KidsAfter(preds, tree, x);
      Weight(preds, tree, nodes[..|nodes| - 1], lo) + 1 + Weight(preds, tree, Children(tree, x), x + 1)
  }

  /** The bound does not matter. */
  lemma {:induction false} WeightOfAny(preds: seq<seq<nat>>, tree: map<nat, seq<nat>>, nodes: seq<nat>, lo: nat)
    requires ValidPreds(preds) && Discovered(preds) && IsTree(preds, tree) && Within(nodes, lo, |preds|)
    ensures Weight(preds, tree, nodes, lo) == Weight(preds, tree, nodes, 0)
  {
    if nodes != [] {
      WeightOfAny(preds, tree, nodes[..|nodes| - 1], lo);
    }
  }

  lemma WeightOfLast(preds: seq<seq<nat>>, tree: map<nat, seq<nat>>, nodes: seq<nat>)
    requires ValidPreds(preds) && Discovered(preds) && IsTree(preds, tree)
    requires nodes != [] && Within(nodes, 0, |preds|)
    ensures Within(nodes[..|nodes| - 1], 0, |preds|) && Within(Children(tree, nodes[|nodes| - 1]), 0, |preds|)
    ensures Weight(preds, tree, nodes, 0)
         == Weight(preds, tree, nodes[..|nodes| - 1], 0) + 1
            + Weight(preds, tree, Children(tree, nodes[|nodes| - 1]), 0)
  {
    KidsAfter(preds, tree, nodes[|nodes| - 1]);
    WeightOfAny(preds, tree, Children(tree, nodes[|nodes| - 1]), nodes[|nodes| - 1] + 1);
  }

  lemma {:induction false} WeightOfMore(preds: seq<seq<nat>>, tree: map<nat, seq<nat>>, a: seq<nat>, b: seq<nat>)
    requires ValidPreds(preds) && Discovered(preds) && IsTree(preds, tree)
    requires Within(a, 0, |preds|) && Within(b, 0, |preds|)
    ensures Weight(preds, tree, a + b, 0) == Weight(preds, tree, a, 0) + Weight(preds, tree, b, 0)
  {
    if b == [] {
      assert a + b == a;
    } else {
      WeightOfMore(preds, tree, a, b[..|b| - 1]);
      assert (a + b)[..|a + b| - 1] == a + b[..|b| - 1];
    }
  }

  /** All nodes still to visit are below `dom`, and if the one looked for is, one of them is above it. */
  ghost predicate Walk(preds: seq<seq<nat>>, dom: nat, node: nat, toVisit: seq<nat>)
    requires ValidPreds(preds) && Discovered(preds) && node < |preds|
  {
    && (forall x :: x in toVisit ==> x < |preds| && x != node && Ancestor(preds, dom, x))
    && (Ancestor(preds, dom, node) ==> exists x :: x in toVisit && Ancestor(preds, x, node))
  }

  lemma WalkOn(preds: seq<seq<nat>>, tree: map<nat, seq<nat>>, dom: nat, node: nat, rest: seq<nat>, id: nat)
    requires ValidPreds(preds) && Discovered(preds) && IsTree(preds, tree) && node < |preds|
    requires Walk(preds, dom, node, rest + [id]) && node !in Children(tree, id)
    ensures Walk(preds, dom, node, rest + Children(tree, id))
  {
    var kids := Children(tree, id);
    forall x | x in kids ensures x < |preds| && Ancestor(preds, dom, x) {
      KidsAreBelow(preds, tree, id, x);
      IdomIsEarlier(preds, x);
      assert id in rest + [id];
    }
    forall x | x in rest ensures x < |preds| && x != node && Ancestor(preds, dom, x) {
      assert x in rest + [id];
    }
    if Ancestor(preds, dom, node) {
      var x :| x in rest + [id] && Ancestor(preds, x, node);
      if x == id {
        var kid := ChildTowards(preds, id, node);
        KidsAreBelow(preds, tree, id, kid);
        assert kid in rest + kids && Ancestor(preds, kid, node);
      } else {
        assert x in rest + kids;
      }
    }
  }

  lemma WalkLessens(preds: seq<seq<nat>>, tree: map<nat, seq<nat>>, rest: seq<nat>, id: nat)
    requires ValidPreds(preds) && Discovered(preds) && IsTree(preds, tree) && Within(rest + [id], 0, |preds|)
    ensures Within(rest + Children(tree, id), 0, |preds|)
    ensures Weight(preds, tree, rest + Children(tree, id), 0) < Weight(preds, tree, rest + [id], 0)
  {
    WeightOfLast(preds, tree, rest + [id]);
    assert (rest + [id])[..|rest|] == rest;
    WeightOfMore(preds, tree, rest, Children(tree, id));
  }

  /** Whether `dom` is an ancestor of `node` in the tree, by a walk down from `dom` that keeps no record of
      the nodes it met. */
  method IsDominator(tree: map<nat, seq<nat>>, dom: nat, node: nat, ghost preds: seq<seq<nat>>) returns (found: bool)
    requires ValidPreds(preds) && Discovered(preds) && IsTree(preds, tree) && dom < |preds| && node < |preds|
    ensures found <==> Ancestor(preds, dom, node)
  {
    if node == dom {
      return true;
    }
    var toVisit := [dom];
    assert dom in toVisit;
    while toVisit != []
      invariant Walk(preds, dom, node, toVisit) && Within(toVisit, 0, |preds|)
      decreases Weight(preds, tree, toVisit, 0)
    {
      var id := toVisit[|toVisit| - 1];
      ghost var rest := toVisit[..|toVisit| - 1];
      assert toVisit == rest + [id];
      var dommed;
      dommed, toVisit := PushChildren(tree, toVisit[..|toVisit| - 1], id, node);
      if dommed {
        KidsAreBelow(preds, tree, id, node);
        return true;
      }
      WalkOn(preds, tree, dom, node, rest, id);
      WalkLessens(preds, tree, rest, id);
    }
    return false;
  }

  method PushChildren(tree: map<nat, seq<nat>>, rest: seq<nat>, id: nat, node: nat)
    returns (dommed: bool, toVisit: seq<nat>)
    ensures dommed <==> node in Children(tree, id)
    ensures !dommed ==> toVisit == rest + Children(tree, id)
  {
    toVisit := rest;
    var kids := Children(tree, id);
    for i := 0 to |kids|
      invariant toVisit == rest + kids[..i] && node !in kids[..i]
    {
      if node == kids[i] {
        return true, toVisit;
      }
      toVisit := toVisit + [kids[i]];
    }
    assert kids[..|kids|] == kids;
    dommed := false;
  }

  /** The tree as it is asked about blocks: `times` gives the DFS times of the reachable blocks. */
  ghost predicate TreeFits(preds: seq<seq<nat>>, times: map<nat, nat>) {
    && ValidPreds(preds) && Discovered(preds)
    && (forall b :: b in times ==> times[b] < |preds|)
    && (forall a, b :: a in times && b in times && times[a] == times[b] ==> a == b)
  }

  ghost predicate BlockAbove(preds: seq<seq<nat>>, times: map<nat, nat>, a: nat, b: nat)
    requires TreeFits(preds, times)
  {
    a in times && b in times && Ancestor(preds, times[a], times[b])
  }

  // ----- from the graph -----

  /** `predLists` are the predecessor lists of the same graph, and only reachable nodes occur in the lists
      of reachable nodes. */
  ghost predicate MatchingPreds(g: Graph, entry: nat, predLists: Graph) {
    && |predLists| == |g| && (forall p, v :: 0 <= p < |g| && 0 <= v < |g| ==> (p in predLists[v] <==> v in g[p]))
    && (forall v, j :: 0 <= v < |g| && 0 <= j < |predLists[v]| && Reachable(g, entry, v) ==>
          Reachable(g, entry, predLists[v][j]))
  }

  /** `order` names the reachable nodes by DFS time; `preds` are the predecessor lists in these names. */
  ghost predicate Renames(g: Graph, entry: nat, predLists: Graph, order: seq<nat>, preds: seq<seq<nat>>) {
    && IsPreOrder(g, entry, order) && |preds| == |order|
    && (forall t :: 0 <= t < |order| ==> RenamesList(predLists, order, t, preds[t]))
  }

  ghost predicate RenamesList(predLists: Graph, order: seq<nat>, t: nat, list: seq<nat>)
    requires t < |order|
  {
    && order[t] < |predLists| && |list| == |predLists[order[t]]|
    && (forall j :: 0 <= j < |list| ==> list[j] < |order| && order[list[j]] == predLists[order[t]][j])
  }

  lemma {:induction false} ReachableInGraph(g: Graph, entry: nat, v: nat)
    requires Reachable(g, entry, v)
    ensures v < |g|
  {
    var path :| EntryPath(g, entry, path, v);
  }

  lemma Twice(order: seq<nat>, i: nat, k: nat)
    requires i < k < |order| && order[i] == order[k]
    ensures multiset(order)[order[i]] >= 2
  {
    assert order == order[..k] + order[k..];
    assert order[..k][i] == order[i] && order[k..][0] == order[k];
    assert order[i] in multiset(order[..k]) && order[i] in multiset(order[k..]);
  }

  lemma OrderOf(g: Graph, entry: nat, order: seq<nat>, i: nat, k: nat)
    requires IsPreOrder(g, entry, order) && i < |order| && k < |order| && order[i] == order[k]
    ensures i == k
  {
    assert multiset(order)[order[i]] <= 1;
    if i < k {
      Twice(order, i, k);
    } else if k < i {
      Twice(order, k, i);
    }
  }

  /** An edge between nodes of the order is one between their times. */
  lemma EdgeRenamed(g: Graph, entry: nat, predLists: Graph, order: seq<nat>, preds: seq<seq<nat>>, a: nat, b: nat)
    requires Renames(g, entry, predLists, order, preds) && MatchingPreds(g, entry, predLists)
    requires a < |order| && b < |order| && order[a] < |g| && order[b] in g[order[a]]
    ensures a in preds[b]
  {
    assert RenamesList(predLists, order, b, preds[b]);
    var j :| 0 <= j < |predLists[order[b]]| && predLists[order[b]][j] == order[a];
    OrderOf(g, entry, order, preds[b][j], a);
  }

  /** The renamed lists meet what the builder needs: every later node has an earlier predecessor. */
  lemma RenamedIsDiscovered(g: Graph, entry: nat, predLists: Graph, order: seq<nat>, preds: seq<seq<nat>>)
    requires Renames(g, entry, predLists, order, preds) && MatchingPreds(g, entry, predLists)
    ensures ValidPreds(preds) && Discovered(preds)
  {
    assert ValidPreds(preds) by {
      assert forall t :: 0 <= t < |order| ==> RenamesList(predLists, order, t, preds[t]);
    }
    forall t | 0 < t < |preds| ensures HasEarlierPred(preds, t) {
      assert FromEarlier(g, order, t);
      var k :| 0 <= k < t && order[k] < |g| && order[t] in g[order[k]];
      EdgeRenamed(g, entry, predLists, order, preds, k, t);
    }
  }

  /** The nodes among the first `n` that have `p` as predecessor. */
  ghost function SuccsOf(preds: seq<seq<nat>>, p: nat, n: nat): (s: seq<nat>)
    requires n <= |preds|
    ensures forall t: nat :: t in s <==> t < n && p in preds[t]
  {
    if n == 0 then [] else SuccsOf(preds, p, n - 1) + if p in preds[n - 1] then [n - 1] else []
  }

  ghost function Transposed(preds: seq<seq<nat>>): (h: Graph)
    ensures |h| == |preds| && forall p :: 0 <= p < |h| ==> h[p] == SuccsOf(preds, p, |preds|)
  {
    seq(|preds|, p requires 0 <= p => SuccsOf(preds, p, |preds|))
  }

  lemma TransposedFits(preds: seq<seq<nat>>)
    requires ValidPreds(preds)
    ensures PredsOf(Transposed(preds), preds)
  {
    var h := Transposed(preds);
    forall u, j | 0 <= u < |h| && 0 <= j < |h[u]| ensures h[u][j] < |h| {
      assert h[u][j] in SuccsOf(preds, u, |preds|);
    }
  }

  /** The same path, in DFS times. */
  ghost predicate InDfsTimes(order: seq<nat>, preds: seq<seq<nat>>, path: seq<nat>, times: seq<nat>) {
    && IsPath(Transposed(preds), times) && |times| == |path|
    && forall i :: 0 <= i < |times| ==> times[i] < |order| && order[times[i]] == path[i]
  }

  lemma {:induction false} PathRenamed(g: Graph, entry: nat, predLists: Graph, order: seq<nat>, preds: seq<seq<nat>>,
                                       path: seq<nat>) returns (times: seq<nat>)
    requires Renames(g, entry, predLists, order, preds) && MatchingPreds(g, entry, predLists)
    requires IsPath(g, path) && path[0] == entry
    ensures InDfsTimes(order, preds, path, times) && times[0] == 0
  {
    if |path| == 1 {
      times := [0];
    } else {
      var front := PathRenamed(g, entry, predLists, order, preds, path[..|path| - 1]);
      times := NextTime(g, entry, predLists, order, preds, path, front);
    }
  }

  lemma NextTime(g: Graph, entry: nat, predLists: Graph, order: seq<nat>, preds: seq<seq<nat>>, path: seq<nat>,
                 front: seq<nat>) returns (times: seq<nat>)
    requires Renames(g, entry, predLists, order, preds) && MatchingPreds(g, entry, predLists)
    requires IsPath(g, path) && path[0] == entry && |path| > 1
    requires InDfsTimes(order, preds, path[..|path| - 1], front)
    ensures InDfsTimes(order, preds, path, times) && times[0] == front[0]
  {
    var t := TimeOf(g, entry, order, path);
    EdgeRenamed(g, entry, predLists, order, preds, front[|front| - 1], t);
    times := OneMore(preds, front, t);
    OneMoreInTimes(order, preds, path, front, times, t);
  }

  lemma OneMoreInTimes(order: seq<nat>, preds: seq<seq<nat>>, path: seq<nat>, front: seq<nat>, times: seq<nat>, t: nat)
    requires |path| > 1 && InDfsTimes(order, preds, path[..|path| - 1], front) && times == front + [t]
    requires IsPath(Transposed(preds), times) && t < |order| && order[t] == path[|path| - 1]
    ensures InDfsTimes(order, preds, path, times) && times[0] == front[0]
  {
  }

  lemma TimeOf(g: Graph, entry: nat, order: seq<nat>, path: seq<nat>) returns (t: nat)
    requires IsPreOrder(g, entry, order) && IsPath(g, path) && path[0] == entry
    ensures t < |order| && order[t] == path[|path| - 1]
  {
    assert EntryPath(g, entry, path, path[|path| - 1]) && path[|path| - 1] in multiset(order);
    t :| 0 <= t < |order| && order[t] == path[|path| - 1];
  }

  lemma OneMore(preds: seq<seq<nat>>, front: seq<nat>, t: nat) returns (times: seq<nat>)
    requires IsPath(Transposed(preds), front) && t < |preds| && front[|front| - 1] in preds[t]
    ensures IsPath(Transposed(preds), times) && times == front + [t]
  {
    times := front + [t];
    assert times[..|front|] == front;
    assert t in SuccsOf(preds, front[|front| - 1], |preds|);
  }

  /** Whatever the tree reports as a dominator is one in the graph, provided the builder's comparison is
      harmless at every node. */
  lemma TreeIsSound(g: Graph, entry: nat, predLists: Graph, order: seq<nat>, preds: seq<seq<nat>>, d: nat, v: nat)
    requires Renames(g, entry, predLists, order, preds) && MatchingPreds(g, entry, predLists)
    requires ValidPreds(preds) && Discovered(preds) && AllHarmless(preds, |preds|)
    requires v < |order| && Ancestor(preds, d, v)
    ensures d < |order| && Dominates(g, entry, order[d], order[v])
  {
    TransposedFits(preds);
    AncestorDominates(Transposed(preds), preds, d, v);
    forall path | EntryPath(g, entry, path, order[v]) ensures order[d] in path {
      var times := PathRenamed(g, entry, predLists, order, preds, path);
      OrderOf(g, entry, order, times[|times| - 1], v);
      assert EntryPath(Transposed(preds), 0, times, v);
      var i :| 0 <= i < |times| && times[i] == d;
    }
  }

  /** The builder on a graph: depth-first search, renaming, semidominators, idoms, tree. */
  method BuildDomTree(g: Graph, entry: nat, predLists: Graph)
    returns (order: seq<nat>, revIdMap: map<nat, nat>, builder: DomTreeBuilder)
    requires ValidGraph(g) && entry < |g| && MatchingPreds(g, entry, predLists)
    ensures Renames(g, entry, predLists, order, builder.preds)
    ensures ValidPreds(builder.preds) && Discovered(builder.preds) && IsTree(builder.preds, builder.tree)
    ensures IsTimes(g, entry, order, revIdMap)
  {
    order := PreOrder(g, Some(entry));
    revIdMap := DfsTimes(g, entry, order);
    var preds: seq<seq<nat>> := [];
    for t := 0 to |order|
      invariant |preds| == t && forall u :: 0 <= u < t ==> RenamesList(predLists, order, u, preds[u])
    {
      assert order[t] in multiset(order);
      ReachableInGraph(g, entry, order[t]);
      var list := RenameList(g, entry, predLists, order, revIdMap, t);
      preds := preds + [list];
    }
    RenamedIsDiscovered(g, entry, predLists, order, preds);
    builder := new DomTreeBuilder(preds);
  }

  /** The time of every reachable node. */
  ghost predicate IsTimes(g: Graph, entry: nat, order: seq<nat>, times: map<nat, nat>) {
    && (forall n :: n in times <==> Reachable(g, entry, n))
    && (forall n :: n in times ==> times[n] < |order| && order[times[n]] == n)
  }

  method DfsTimes(g: Graph, entry: nat, order: seq<nat>) returns (revIdMap: map<nat, nat>)
    requires IsPreOrder(g, entry, order)
    ensures IsTimes(g, entry, order, revIdMap)
  {
    revIdMap := map[];
    for i := 0 to |order|
      invariant forall n :: n in order[..i] <==> n in revIdMap
      invariant forall n :: n in revIdMap ==> revIdMap[n] < |order| && order[revIdMap[n]] == n
    {
      assert order[..i + 1] == order[..i] + [order[i]];
      revIdMap := revIdMap[order[i] := i];
    }
    assert order[..|order|] == order;
    forall n: nat ensures n in revIdMap <==> Reachable(g, entry, n) {
      assert n in multiset(order) <==> n in order;
    }
  }

  method RenameList(g: Graph, entry: nat, predLists: Graph, order: seq<nat>, revIdMap: map<nat, nat>, t: nat)
    returns (list: seq<nat>)
    requires MatchingPreds(g, entry, predLists) && t < |order| && order[t] < |g| && Reachable(g, entry, order[t])
    requires IsTimes(g, entry, order, revIdMap)
    ensures RenamesList(predLists, order, t, list)
  {
    list := [];
    for j := 0 to |predLists[order[t]]|
      invariant |list| == j
      invariant forall i :: 0 <= i < j ==> list[i] < |order| && order[list[i]] == predLists[order[t]][i]
    {
      list := list + [revIdMap[predLists[order[t]][j]]];
    }
  }
}
