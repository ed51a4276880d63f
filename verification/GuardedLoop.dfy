/** A guarded loop that the analyzer takes for irreducible. */
module GuardedLoop {
  import opened Graphs
  import opened DfsState
  import opened Dfs
  import opened DomSpec
  import opened Dominators
  import opened SearchSteps
  import opened LoopTrace
  import opened LoopAnalyzers

  /** Edges 0-1, 0-2, 1-2, 1-3, 3-1: block 0 skips the loop of 1 and 3, or enters it. */
  function Guarded(): Graph {
    [[1, 2], [2, 3], [], [1]]
  }

  function GuardedPreds(): seq<seq<nat>> {
    [[], [0, 3], [0, 1], [1]]
  }

  lemma GuardedIsValid()
    ensures PredsOf(Guarded(), GuardedPreds()) && Discovered(GuardedPreds()) && NoSelfEdges(Guarded())
  {
    var preds := GuardedPreds();
    forall t | 0 < t < |preds| ensures HasEarlierPred(preds, t) {
      assert preds[t][0] < t;
    }
  }

  // ----- the search -----

  /** What the search reports: it goes over 1 to 2, comes back to 1 and finds 3 and its edge back. */
  function Events(): seq<Event> {
    [Discover(0), Discover(1), Discover(2), Finish(2), Discover(3), BackEdge(3, 0, 1), Finish(3), Finish(1), Finish(0)]
  }

  /** The views of the search, look by look. */
  function Views(): seq<Sight> {
    [Sight(Push(0, 0, Empty), Events()[..1], [0]),
     Sight(Push(1, 0, Push(0, 1, Empty)), Events()[..2], [0, 1]),
     Sight(Push(2, 0, Push(1, 1, Push(0, 1, Empty))), Events()[..3], [0, 1, 2]),
     Sight(Push(1, 1, Push(0, 1, Empty)), Events()[..4], [0, 1, 2]),
     Sight(Push(3, 0, Push(1, 2, Push(0, 1, Empty))), Events()[..5], [0, 1, 2, 3]),
     Sight(Push(3, 1, Push(1, 2, Push(0, 1, Empty))), Events()[..6], [0, 1, 2, 3]),
     Sight(Push(1, 2, Push(0, 1, Empty)), Events()[..7], [0, 1, 2, 3]),
     Sight(Push(0, 1, Empty), Events()[..8], [0, 1, 2, 3]),
     Sight(Push(0, 2, Empty), Events()[..8], [0, 1, 2, 3]),
     Sight(Empty, Events()[..9], [0, 1, 2, 3])]
  }

  lemma ViewsFollow(i: nat)
    requires i < 9
    ensures IsLook(Guarded(), Views(), i)
  {
  }

  lemma GuardedSearch() returns (s: Search)
    ensures IsSearchOrder(Guarded(), 0, Named(4)) && Finished(Guarded(), 0, s) && s.trace == Events()
  {
    assert Views()[9].order == Named(4);
    Begins(Guarded(), 0);
    forall i | 0 <= i < 9 ensures IsLook(Guarded(), Views(), i) {
      ViewsFollow(i);
    }
    LooksOn(Guarded(), 0, Views(), 9);
    s := Ends(Guarded(), 0, Views()[9]);
  }

  lemma GuardedIsNamed()
    ensures NamedByTime(Guarded(), GuardedPreds()) && MatchingPreds(Guarded(), 0, GuardedPreds())
  {
    var s := GuardedSearch();
    GuardedIsValid();
    NamedMatches(Guarded(), GuardedPreds());
  }

  // ----- the tree -----

  lemma GuardedSdoms()
    requires ValidPreds(GuardedPreds())
    ensures Sdom(GuardedPreds(), 0) == 0 && Sdom(GuardedPreds(), 1) == 0
    ensures Sdom(GuardedPreds(), 2) == 0 && Sdom(GuardedPreds(), 3) == 1
  {
    var preds := GuardedPreds();
    assert SdomFrom(preds, 1, 1) == 0 && SdomFrom(preds, 2, 1) == 0;
    SdomIsBelow(preds, 1, 2);
    assert SdomFrom(preds, 3, 0) == 3;
  }

  /** The edge from 2 to 3 that the builder takes for granted leads around 1. */
  lemma GuardedIdom()
    requires ValidPreds(GuardedPreds()) && Discovered(GuardedPreds())
    ensures Idom(GuardedPreds(), 3) == 0 && !Ancestor(GuardedPreds(), 1, 3)
  {
    var preds := GuardedPreds();
    GuardedSdoms();
    assert ArgMin(preds, 1, 1) == 1 && ArgMin(preds, 1, 2) == 2 && ArgMin(preds, 1, 3) == 2;
    assert ArgMin(preds, 0, 0) == 0 && ArgMin(preds, 0, 1) == 1 && ArgMin(preds, 0, 2) == 2;
    assert Idom(preds, 2) == 0;
    assert !Ancestor(preds, 1, 0);
  }

  lemma GuardedIsHarmless()
    requires ValidPreds(GuardedPreds()) && Discovered(GuardedPreds())
    ensures AllHarmless(GuardedPreds(), 4)
  {
    var preds := GuardedPreds();
    GuardedSdoms();
    assert ArgMin(preds, 1, 1) == 1 && ArgMin(preds, 1, 2) == 2 && ArgMin(preds, 1, 3) == 2;
    assert ArgMin(preds, 0, 0) == 0 && ArgMin(preds, 0, 1) == 1 && ArgMin(preds, 0, 2) == 2;
  }

  /** Only 1 leads to 3. */
  lemma HeaderDominatesLatch()
    ensures Dominates(Guarded(), 0, 1, 3)
  {
    forall path | EntryPath(Guarded(), 0, path, 3) ensures 1 in path {
      LastEdge(Guarded(), path);
      var u := path[|path| - 2];
      assert u == 1;
    }
  }

  // ----- the flag -----

  lemma GuardedSources()
    ensures Sources(Events(), 1) == [3]
  {
    SourcesAfter(9);
    assert Events()[..9] == Events();
  }

  lemma {:induction false} SourcesUpTo(n: nat)
    requires n <= 9
    ensures n <= 5 ==> Sources(Events()[..n], 1) == []
  {
    if n > 0 {
      SourcesUpTo(n - 1);
      assert Events()[..n][..n - 1] == Events()[..n - 1];
    }
  }

  lemma {:induction false} SourcesAfter(n: nat)
    requires 6 <= n <= 9
    ensures Sources(Events()[..n], 1) == [3]
  {
    if n == 6 {
      SourcesUpTo(5);
      assert Events()[..6][..5] == Events()[..5];
    } else {
      SourcesAfter(n - 1);
      assert Events()[..n][..n - 1] == Events()[..n - 1];
    }
  }

  /** Whatever the analyzer finds: the loop of 1 with latch 3, which its header dominates, is flagged irreducible. */
  lemma LoopIsMissed(found: Record, s: Search)
    requires Finished(Guarded(), 0, s) && Recorded(found, s.trace) && IsFlagged(Guarded(), 0, GuardedPreds(), found)
    ensures 1 in found.backEdgesSrc && found.backEdgesSrc[1] == [3] && Dominates(Guarded(), 0, 1, 3)
    ensures 1 in found.reducible && !found.reducible[1]
  {
    var t := GuardedSearch();
    OneSearch(Guarded(), 0, s, t);
    GuardedSources();
    HeaderDominatesLatch();
    GuardedIsValid();
    GuardedIsNamed();
    GuardedIdom();
    var order, times, tpreds :| Flagged(Guarded(), 0, GuardedPreds(), found, order, times, tpreds);
    NamedBuilt(Guarded(), GuardedPreds(), order, tpreds);
    NamedTimes(Guarded(), GuardedPreds(), times, 1);
    NamedTimes(Guarded(), GuardedPreds(), times, 3);
  }
}
