/** When the loops of a graph are flagged reducible, and an ordinary loop that is not. */
module LoopFlags {
  import opened Graphs
  import opened DfsState
  import opened Dfs
  import opened DomSpec
  import opened Dominators
  import opened TreeSoundness
  import opened LoopSpec
  import opened LoopTrace
  import opened LoopOwnership
  import opened LoopAnalyzers

  ghost predicate AllFlagged(found: Record) {
    forall h :: h in found.backEdgesSrc ==> h in found.reducible && found.reducible[h]
  }

  /** The flag of a loop is set if its header dominates the source of the first back edge even with an edge from every
      block to the one the search discovers next; where the comparisons of the tree are harmless, only then. */
  lemma FlagIff(g: Graph, entry: nat, preds: Graph, found: Record, order: seq<nat>, times: map<nat, nat>,
                tpreds: seq<seq<nat>>, h: nat)
    requires ValidGraph(g) && entry < |g| && MatchingPreds(g, entry, preds)
    requires Flagged(g, entry, preds, found, order, times, tpreds) && TablesFit(found)
    requires h in found.backEdgesSrc && Reachable(g, entry, h) && Reachable(g, entry, found.backEdgesSrc[h][0])
    ensures var u := found.backEdgesSrc[h][0];
            && h in found.reducible
            && (Dominates(WithChain(g, order), entry, h, u) ==> found.reducible[h])
            && (AllHarmless(tpreds, |tpreds|) ==> (found.reducible[h] <==> Dominates(WithChain(g, order), entry, h, u)))
  {
    var u := found.backEdgesSrc[h][0];
    BlockReportedIff(g, entry, preds, order, tpreds, times[h], times[u]);
  }

  /** In the graph with those edges every header dominates the sources of its back edges. */
  ghost predicate StaysReducible(g: Graph, entry: nat, order: seq<nat>, found: Record) {
    HeadersDominate(WithChain(g, order), entry, found.backEdgesSrc)
  }

  /** Then the loops are natural and flagged: all that is left to ask is that the searches meet the inner loops. */
  lemma RegularFromGraph(g: Graph, entry: nat, preds: Graph, found: Record, s: Search, order: seq<nat>)
    requires ValidGraph(g) && entry < |g| && MatchingPreds(g, entry, preds) && NoSelfEdges(g)
    requires Finished(g, entry, s) && Recorded(found, s.trace) && IsFlagged(g, entry, preds, found)
    requires IsSearchOrder(g, entry, order) && StaysReducible(g, entry, order, found)
    requires LoopsAreMet(g, LoopsOf(found))
    ensures Regular(g, entry, found)
  {
    forall h, u | h in found.backEdgesSrc && u in found.backEdgesSrc[h] ensures Dominates(g, entry, h, u) {
      ChainDominatesInGraph(g, entry, order, h, u);
    }
    LoopsAreNatural(g, entry, s, found.backEdgesSrc);
    var order', times, tpreds :| Flagged(g, entry, preds, found, order', times, tpreds);
    OneOrder(g, entry, order, order');
    forall h | h in found.backEdgesSrc ensures h in found.reducible && found.reducible[h] {
      FlagIsSet(g, entry, preds, found, order', times, tpreds, h);
    }
  }

  lemma FlagIsSet(g: Graph, entry: nat, preds: Graph, found: Record, order: seq<nat>, times: map<nat, nat>,
                  tpreds: seq<seq<nat>>, h: nat)
    requires ValidGraph(g) && entry < |g| && MatchingPreds(g, entry, preds) && Natural(g, entry, LoopsOf(found))
    requires Flagged(g, entry, preds, found, order, times, tpreds) && TablesFit(found)
    requires h in found.backEdgesSrc && StaysReducible(g, entry, order, found)
    ensures h in found.reducible && found.reducible[h]
  {
    var u := found.backEdgesSrc[h][0];
    assert u in found.backEdgesSrc[h];
    assert IsLatch(g, entry, h, u);
    HeaderIsReachable(g, entry, h, u);
    FlagIff(g, entry, preds, found, order, times, tpreds, h);
  }
}
