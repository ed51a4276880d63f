/** From the search over the loops and the linear order to the registers: the whole back end on one graph. */
module Pipeline {
  import opened Graphs
  import opened DfsState
  import opened Dfs
  import opened LoopSpec
  import opened LoopFilling
  import opened LoopAnalyzers
  import opened LinearOrders
  import opened BlockLayouts
  import opened BlockOrders
  import opened Ir
  import opened LinearScan
  import opened Liveness
  import opened LivenessProofs
  import opened RegAllocators
  import opened Allocation

  /** The code of the graph in the order that analyzer and builder leave. */
  ghost predicate IsLayout(g: Graph, entry: nat, preds: Graph, s: Search, found: Record, toLoop: map<nat, nat>,
                           outer: map<nat, nat>, body: map<nat, seq<Item>>, order: seq<nat>, code: Code) {
    && Analyzed(g, entry, preds, found, toLoop, outer, body) && Nests(found.heads, body)
    && Finished(g, entry, s) && Recorded(found, s.trace)
    && IsLinearOrder(g, entry, LoopsOf(found), body, order) && FollowsSearch(g, entry, LoopsOf(found), order)
    && EachOnce(g, LoopsOf(found)) && LaidOut(g, LoopsOf(found), order, code)
  }

  lemma LayoutServes(g: Graph, entry: nat, preds: Graph, s: Search, found: Record, toLoop: map<nat, nat>,
                     outer: map<nat, nat>, body: map<nat, seq<Item>>, order: seq<nat>, code: Code)
    requires IsLayout(g, entry, preds, s, found, toLoop, outer, body, order, code)
    ensures LoopsContiguous(code) <==> AllSuccessorsFirst(g, preds, LoopsOf(found))
  {
    AnalysisGivesOrder(g, entry, preds, s, found, toLoop, outer, body, order);
    LoopsContiguousIff(g, entry, preds, s, LoopsOf(found), body, order, code);
  }

  /** Where in every loop the blocks are met after their successors, two values of a program in SSA form on that graph
      that occupy their places at the same point have different places, with any number of registers. */
  lemma PlacesDiffer(g: Graph, entry: nat, preds: Graph, s: Search, found: Record, toLoop: map<nat, nat>,
                     outer: map<nat, nat>, body: map<nat, seq<Item>>, order: seq<nat>, code: Code,
                     defs: map<nat, Point>, k: nat, sorted: seq<nat>, locs: Locations, v: nat, w: nat, p: Point)
    requires IsLayout(g, entry, preds, s, found, toLoop, outer, body, order, code)
    requires AllSuccessorsFirst(g, preds, LoopsOf(found))
    requires ValidCode(code) && Ssa(code, defs) && Complete(Intervals(code), k, sorted, locs)
    requires v != w && Occupied(code, defs, v, p) && Occupied(code, defs, w, p)
    ensures v in locs && w in locs && locs[v] != locs[w]
  {
    LayoutServes(g, entry, preds, s, found, toLoop, outer, body, order, code);
    OccupiedPlacesDiffer(code, defs, k, sorted, locs, v, w, p);
  }
}
