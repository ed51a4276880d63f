/** Following the depth-first search of a given graph step by step. */
module SearchSteps {
  import opened Graphs
  import opened DfsState
  import opened Dfs
  import opened DomSpec
  import opened Dominators

  /** A moment of the search with the order of discovery so far. */
  datatype Sight = Sight(stack: Stack, trace: seq<Event>, order: seq<nat>)

  function Outset(entry: nat): Sight {
    Sight(Push(entry, 0, Empty), [Discover(entry)], [entry])
  }

  function Look(g: Graph, v: Sight): Sight
    requires v.stack.Push?
  {
    var n, j := v.stack.node, v.stack.next;
    if n >= |g| || j >= |g[n]| then v.(stack := v.stack.below, trace := v.trace + [Finish(n)])
    else
      var t, onwards := g[n][j], v.stack.(next := j + 1);
      if t in Elems(Nodes(v.stack)) then v.(stack := onwards, trace := v.trace + [BackEdge(n, j, t)])
      else if t in v.order then v.(stack := onwards)
      else Sight(Push(t, 0, onwards), v.trace + [Discover(t)], v.order + [t])
  }

  /** The search comes by this. */
  ghost predicate Seen(g: Graph, entry: nat, v: Sight) {
    exists k: nat :: After(g, entry, k) == Moment(v.stack, v.trace) && DiscoverOrder(v.trace) == v.order
  }

  lemma Begins(g: Graph, entry: nat)
    ensures Seen(g, entry, Outset(entry))
  {
    assert [Discover(entry)][..0] == [];
    assert DiscoverOrder([]) == [];
    assert After(g, entry, 0) == Moment(Outset(entry).stack, Outset(entry).trace);
  }

  lemma Looks(g: Graph, entry: nat, v: Sight, v': Sight)
    requires Seen(g, entry, v) && v.stack.Push? && v' == Look(g, v)
    ensures Seen(g, entry, v')
  {
    var k: nat :| After(g, entry, k) == Moment(v.stack, v.trace) && DiscoverOrder(v.trace) == v.order;
    LookIsNext(g, v);
    assert After(g, entry, k + 1) == Next(g, After(g, entry, k));
  }

  lemma LookIsNext(g: Graph, v: Sight)
    requires v.stack.Push? && DiscoverOrder(v.trace) == v.order
    ensures Next(g, Moment(v.stack, v.trace)) == Moment(Look(g, v).stack, Look(g, v).trace)
    ensures DiscoverOrder(Look(g, v).trace) == Look(g, v).order
  {
    var trace := Look(g, v).trace;
    if trace != v.trace {
      assert trace[..|v.trace|] == v.trace;
    }
  }

  /** Where it ends, it ends for every search of the graph. */
  lemma Ends(g: Graph, entry: nat, v: Sight) returns (s: Search)
    requires ValidGraph(g) && entry < |g| && Seen(g, entry, v) && v.stack.Empty?
    ensures Finished(g, entry, s) && s.trace == v.trace && IsSearchOrder(g, entry, v.order)
  {
    var k: nat :| After(g, entry, k) == Moment(v.stack, v.trace) && DiscoverOrder(v.trace) == v.order;
    StateKeeps(g, entry, k);
    s := StateAfter(g, entry, k);
  }

  /** A list of views, each one look after the one before it. */
  lemma {:induction false} LooksOn(g: Graph, entry: nat, views: seq<Sight>, n: nat)
    requires Seen(g, entry, Outset(entry)) && n < |views| && views[0] == Outset(entry)
    requires forall i :: 0 <= i < |views| - 1 ==> IsLook(g, views, i)
    ensures Seen(g, entry, views[n])
  {
    if n > 0 {
      LooksOn(g, entry, views, n - 1);
      assert IsLook(g, views, n - 1);
      Looks(g, entry, views[n - 1], views[n]);
    }
  }

  ghost predicate IsLook(g: Graph, views: seq<Sight>, i: nat)
    requires i < |views| - 1
  {
    views[i].stack.Push? && views[i + 1] == Look(g, views[i])
  }

  // ----- graphs whose nodes are discovered in the order of their names -----

  function Named(n: nat): (r: seq<nat>)
    ensures |r| == n && forall i :: 0 <= i < n ==> r[i] == i
  {
    seq(n, i requires 0 <= i => i)
  }

  ghost predicate NamedByTime(g: Graph, predLists: Graph) {
    && ValidGraph(g) && |g| > 0 && |predLists| == |g| && IsSearchOrder(g, 0, Named(|g|))
  }

  lemma OrderIsReachable(g: Graph, entry: nat, order: seq<nat>, n: nat)
    requires IsSearchOrder(g, entry, order)
    ensures n in order <==> Reachable(g, entry, n)
  {
    var s :| Finished(g, entry, s) && order == DiscoverOrder(s.trace);
    SearchIsComplete(g, entry, s);
    AllVisitedFinished(g, entry, s);
  }

  lemma AllReachable(g: Graph, predLists: Graph, n: nat)
    requires NamedByTime(g, predLists)
    ensures Reachable(g, 0, n) <==> n < |g|
  {
    OrderIsReachable(g, 0, Named(|g|), n);
    assert n < |g| ==> Named(|g|)[n] == n;
  }

  lemma NamedMatches(g: Graph, predLists: Graph)
    requires NamedByTime(g, predLists) && PredsOf(g, predLists)
    ensures MatchingPreds(g, 0, predLists)
  {
    forall v, j | 0 <= v < |g| && 0 <= j < |predLists[v]| ensures Reachable(g, 0, predLists[v][j]) {
      AllReachable(g, predLists, predLists[v][j]);
    }
  }

  /** For those the lists in DFS times are the predecessor lists themselves. */
  lemma NamedBuilt(g: Graph, predLists: Graph, order: seq<nat>, preds: seq<seq<nat>>)
    requires NamedByTime(g, predLists) && Renames(g, 0, predLists, order, preds)
    ensures order == Named(|g|) && preds == predLists
  {
    OneOrder(g, 0, order, Named(|g|));
    forall t | 0 <= t < |g| ensures preds[t] == predLists[t] {
      assert RenamesList(predLists, order, t, preds[t]);
      NamedList(predLists, order, t, preds[t]);
    }
  }

  lemma NamedList(predLists: Graph, order: seq<nat>, t: nat, list: seq<nat>)
    requires t < |order| == |predLists| && order == Named(|order|) && RenamesList(predLists, order, t, list)
    ensures list == predLists[t]
  {
    forall j | 0 <= j < |list| ensures list[j] == predLists[t][j] {
      assert order[list[j]] == list[j];
    }
  }

  lemma NamedTimes(g: Graph, predLists: Graph, times: map<nat, nat>, n: nat)
    requires NamedByTime(g, predLists) && IsTimes(g, 0, Named(|g|), times)
    ensures n in times <==> n < |g|
    ensures n in times ==> times[n] == n
  {
    AllReachable(g, predLists, n);
  }
}
