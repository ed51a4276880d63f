/** What the dominator tree says about blocks: when it is sound, and which dominators it misses. */
module TreeSoundness {
  import opened Graphs
  import opened DfsState
  import opened DomSpec
  import opened Dominators
  import opened TreeDominance
  import opened ChainDominance
  import opened SearchTrees

  // ----- the same graph in other names -----

  /** `order` names nodes by DFS time, and no edge leads out of it. */
  ghost predicate Naming(h: Graph, entry: nat, order: seq<nat>, ht: Graph) {
    && InTimes(h, order, ht) && order != [] && order[0] == entry
    && (forall i, j :: 0 <= i < |order| && 0 <= j < |order| && order[i] == order[j] ==> i == j)
    && (forall a, n :: 0 <= a < |order| && n in h[order[a]] ==> n in order)
  }

  lemma {:induction false} PathOfTimes(h: Graph, entry: nat, order: seq<nat>, ht: Graph, times: seq<nat>)
    returns (path: seq<nat>)
    requires Naming(h, entry, order, ht) && IsPath(ht, times)
    ensures IsPath(h, path) && |path| == |times|
    ensures forall i :: 0 <= i < |path| ==> times[i] < |order| && path[i] == order[times[i]]
  {
    var t := times[|times| - 1];
    if |times| == 1 {
      path := [order[t]];
    } else {
      LastEdge(ht, times);
      var front := PathOfTimes(h, entry, order, ht, times[..|times| - 1]);
      assert IsPath(h, [order[t]]);
      Appended(h, front, [order[t]]);
      path := front + [order[t]];
    }
  }

  lemma {:induction false} TimesOfPath(h: Graph, entry: nat, order: seq<nat>, ht: Graph, path: seq<nat>)
    returns (times: seq<nat>)
    requires Naming(h, entry, order, ht) && IsPath(h, path) && path[0] == entry
    ensures IsPath(ht, times) && times[0] == 0 && |path| == |times|
    ensures forall i :: 0 <= i < |path| ==> times[i] < |order| && path[i] == order[times[i]]
  {
    if |path| == 1 {
      times := [0];
    } else {
      LastEdge(h, path);
      var front := TimesOfPath(h, entry, order, ht, path[..|path| - 1]);
      var t := TimeOfNext(h, entry, order, ht, front[|front| - 1], path[|path| - 1]);
      Appended(ht, front, [t]);
      times := front + [t];
    }
  }

  lemma TimeOfNext(h: Graph, entry: nat, order: seq<nat>, ht: Graph, a: nat, n: nat) returns (t: nat)
    requires Naming(h, entry, order, ht) && a < |order| && n in h[order[a]]
    ensures t < |order| && order[t] == n && t in ht[a] && IsPath(ht, [t])
  {
    t := IndexOf(order, n);
  }

  /** Dominance does not depend on the names. */
  lemma NamingKeepsDominance(h: Graph, entry: nat, order: seq<nat>, ht: Graph, d: nat, v: nat)
    requires Naming(h, entry, order, ht) && d < |order| && v < |order|
    ensures Dominates(h, entry, order[d], order[v]) <==> Dominates(ht, 0, d, v)
  {
    if Dominates(h, entry, order[d], order[v]) {
      forall times | EntryPath(ht, 0, times, v) ensures d in times {
        var path := PathOfTimes(h, entry, order, ht, times);
        assert EntryPath(h, entry, path, order[v]);
        var i := IndexOf(path, order[d]);
        assert times[i] == d;
      }
    }
    if Dominates(ht, 0, d, v) {
      forall path | EntryPath(h, entry, path, order[v]) ensures order[d] in path {
        var times := TimesOfPath(h, entry, order, ht, path);
        assert EntryPath(ht, 0, times, v);
        var i := IndexOf(times, d);
        assert path[i] == order[d];
      }
    }
  }

  // ----- the graph of the tree -----

  /** What the builder works on: the graph, its predecessor lists, and both in DFS times. */
  ghost predicate Built(g: Graph, entry: nat, predLists: Graph, order: seq<nat>, preds: seq<seq<nat>>) {
    && ValidGraph(g) && entry < |g|
    && Renames(g, entry, predLists, order, preds) && MatchingPreds(g, entry, predLists)
    && ValidPreds(preds) && Discovered(preds)
  }

  lemma BuiltInTimes(g: Graph, entry: nat, predLists: Graph, order: seq<nat>, preds: seq<seq<nat>>, a: nat, b: nat)
    requires Built(g, entry, predLists, order, preds) && a < |order| && b < |order|
    ensures order[a] < |g| && (b in Transposed(preds)[a] <==> order[b] in g[order[a]])
  {
    assert order[a] in multiset(order);
    ReachableInGraph(g, entry, order[a]);
    if order[b] in g[order[a]] {
      EdgeRenamed(g, entry, predLists, order, preds, a, b);
    }
    if b in Transposed(preds)[a] {
      assert RenamesList(predLists, order, b, preds[b]);
      var j :| 0 <= j < |preds[b]| && preds[b][j] == a;
      assert order[a] == predLists[order[b]][j];
    }
  }

  lemma BuiltIsNaming(g: Graph, entry: nat, predLists: Graph, order: seq<nat>, preds: seq<seq<nat>>)
    requires Built(g, entry, predLists, order, preds)
    ensures Naming(g, entry, order, Transposed(preds)) && PredsOf(Transposed(preds), preds)
  {
    TransposedFits(preds);
    forall a, b | 0 <= a < |order| && 0 <= b < |order|
      ensures order[a] < |g| && (b in Transposed(preds)[a] <==> order[b] in g[order[a]])
    {
      BuiltInTimes(g, entry, predLists, order, preds, a, b);
    }
    forall i, j | 0 <= i < |order| && 0 <= j < |order| && order[i] == order[j] ensures i == j {
      OrderOf(g, entry, order, i, j);
    }
    forall a, n | 0 <= a < |order| && n in g[order[a]] ensures n in order {
      assert order[a] in multiset(order);
      var path :| EntryPath(g, entry, path, order[a]);
      ExtendPath(g, entry, path, order[a], n);
      assert n in multiset(order);
    }
  }

  // ----- soundness -----

  /** Whatever the tree reports about blocks is true. */
  ghost predicate SoundFor(g: Graph, entry: nat, order: seq<nat>, preds: seq<seq<nat>>)
    requires ValidPreds(preds) && Discovered(preds) && |preds| == |order|
  {
    forall d: nat, v: nat :: d < |order| && v < |order| && Ancestor(preds, d, v) ==>
        Dominates(g, entry, order[d], order[v])
  }

  lemma SoundInTimes(g: Graph, entry: nat, predLists: Graph, order: seq<nat>, preds: seq<seq<nat>>)
    requires Built(g, entry, predLists, order, preds)
    ensures SoundFor(g, entry, order, preds) <==> Sound(Transposed(preds), preds)
  {
    BuiltIsNaming(g, entry, predLists, order, preds);
    if SoundFor(g, entry, order, preds) {
      forall d: nat, v: nat | v < |preds| && Ancestor(preds, d, v) ensures Dominates(Transposed(preds), 0, d, v) {
        AncestorIsEarlier(preds, d, v);
        NamingKeepsDominance(g, entry, order, Transposed(preds), d, v);
      }
    }
    if Sound(Transposed(preds), preds) {
      forall d: nat, v: nat | d < |order| && v < |order| && Ancestor(preds, d, v)
        ensures Dominates(g, entry, order[d], order[v])
      {
        NamingKeepsDominance(g, entry, order, Transposed(preds), d, v);
      }
    }
  }

  /** The dominator tree of a graph reports only dominators exactly if every computed idom is above its node in the
      tree of the search, and no node on the way down has a semidominator before it. */
  lemma TreeIsSoundIff(g: Graph, entry: nat, predLists: Graph, order: seq<nat>, preds: seq<seq<nat>>, s: Search,
                       par: seq<nat>)
    requires Built(g, entry, predLists, order, preds) && IsTreeOf(g, entry, s, order, par)
    ensures SearchTree(Transposed(preds), par)
    ensures SoundFor(g, entry, order, preds) <==> AllIdomsRight(preds, par)
  {
    BuiltIsNaming(g, entry, predLists, order, preds);
    IsSearchTree(g, entry, s, order, par, Transposed(preds));
    SoundInTimes(g, entry, predLists, order, preds);
    SoundIff(Transposed(preds), preds, par);
  }

  /** Harmless comparisons are enough. */
  lemma HarmlessIsSound(g: Graph, entry: nat, predLists: Graph, order: seq<nat>, preds: seq<seq<nat>>)
    requires Built(g, entry, predLists, order, preds) && AllHarmless(preds, |preds|)
    ensures SoundFor(g, entry, order, preds)
  {
    forall d: nat, v: nat | d < |order| && v < |order| && Ancestor(preds, d, v)
      ensures Dominates(g, entry, order[d], order[v])
    {
      TreeIsSound(g, entry, predLists, order, preds, d, v);
    }
  }

  // ----- what is missed -----

  /** The node discovered right after `n`. */
  ghost function NextInOrder(order: seq<nat>, n: nat): seq<nat> {
    if exists t :: 0 <= t < |order| - 1 && order[t] == n then
      var t :| 0 <= t < |order| - 1 && order[t] == n;
      [order[t + 1]]
    else []
  }

  /** The graph with an edge from every node to the one the search discovers next. */
  ghost function WithChain(g: Graph, order: seq<nat>): (h: Graph)
    ensures |h| == |g| && forall n :: 0 <= n < |g| ==> h[n] == g[n] + NextInOrder(order, n)
  {
    seq(|g|, n requires 0 <= n < |g| => g[n] + NextInOrder(order, n))
  }

  lemma NextAt(order: seq<nat>, a: nat)
    requires a < |order| && forall i, j :: 0 <= i < |order| && 0 <= j < |order| && order[i] == order[j] ==> i == j
    ensures NextInOrder(order, order[a]) == if a + 1 < |order| then [order[a + 1]] else []
  {
  }

  lemma ChainIsNamed(g: Graph, entry: nat, order: seq<nat>, gt: Graph)
    requires Naming(g, entry, order, gt)
    ensures Naming(WithChain(g, order), entry, order, Chained(gt))
  {
    var h := WithChain(g, order);
    forall a, b | 0 <= a < |order| && 0 <= b < |order| ensures b in Chained(gt)[a] <==> order[b] in h[order[a]] {
      ChainEdge(g, entry, order, gt, a, b);
    }
    forall a, n | 0 <= a < |order| && n in h[order[a]] ensures n in order {
      NextAt(order, a);
    }
  }

  lemma ChainEdge(g: Graph, entry: nat, order: seq<nat>, gt: Graph, a: nat, b: nat)
    requires Naming(g, entry, order, gt) && a < |order| && b < |order|
    ensures b in Chained(gt)[a] <==> order[b] in WithChain(g, order)[order[a]]
  {
    NextAt(order, a);
    NextIs(order, a, b);
    assert order[a] < |g| && (b in gt[a] <==> order[b] in g[order[a]]);
    assert b in Chained(gt)[a] <==> b in gt[a] || b == a + 1;
  }

  lemma NextIs(order: seq<nat>, a: nat, b: nat)
    requires a < |order| && b < |order|
    requires forall i, j :: 0 <= i < |order| && 0 <= j < |order| && order[i] == order[j] ==> i == j
    ensures order[b] in (if a + 1 < |order| then [order[a + 1]] else []) <==> b == a + 1
  {
  }

  /** Even with those edges, a dominator is one of the graph. */
  lemma {:induction false} PathInWithChain(g: Graph, order: seq<nat>, path: seq<nat>)
    requires IsPath(g, path)
    ensures IsPath(WithChain(g, order), path)
  {
    if |path| > 1 {
      PathInWithChain(g, order, path[..|path| - 1]);
    }
  }

  lemma ChainDominatesInGraph(g: Graph, entry: nat, order: seq<nat>, d: nat, v: nat)
    requires Dominates(WithChain(g, order), entry, d, v)
    ensures Dominates(g, entry, d, v)
  {
    forall path | EntryPath(g, entry, path, v) ensures d in path {
      PathInWithChain(g, order, path);
      assert EntryPath(WithChain(g, order), entry, path, v);
    }
  }

  /** A dominator is reported for sure if no edge to the node discovered next opens a way around it, and where the
      comparisons are harmless only then. */
  lemma BlockReportedIff(g: Graph, entry: nat, predLists: Graph, order: seq<nat>, preds: seq<seq<nat>>, d: nat, v: nat)
    requires Built(g, entry, predLists, order, preds) && d < |order| && v < |order|
    ensures Dominates(WithChain(g, order), entry, order[d], order[v]) ==> Ancestor(preds, d, v)
    ensures AllHarmless(preds, |preds|) ==>
        (Ancestor(preds, d, v) <==> Dominates(WithChain(g, order), entry, order[d], order[v]))
  {
    BuiltIsNaming(g, entry, predLists, order, preds);
    var gt := Transposed(preds);
    ChainIsNamed(g, entry, order, gt);
    NamingKeepsDominance(WithChain(g, order), entry, order, Chained(gt), d, v);
    if Dominates(Chained(gt), 0, d, v) {
      ChainedIsEarlier(gt, d, v);
      ChainedDominanceIff(gt, preds, d, v);
      ChainedDominatorIsReported(preds, d, v);
    }
    if AllHarmless(preds, |preds|) {
      ReportedIff(gt, preds, d, v);
    }
  }
}
