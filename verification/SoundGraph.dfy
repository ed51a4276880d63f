/** A graph whose tree is sound although the builder's comparison does harm. */
module SoundGraph {
  import opened Graphs
  import opened DomSpec
  import opened TreeDominance

  /** Edges 0-1, 0-2, 1-2, 1-3, 2-3, 2-4. */
  function Fork(): Graph {
    [[1, 2], [2, 3], [3, 4], [], []]
  }

  function ForkPreds(): seq<seq<nat>> {
    [[], [0], [0, 1], [1, 2], [2]]
  }

  lemma ForkIsValid()
    ensures PredsOf(Fork(), ForkPreds()) && Discovered(ForkPreds())
  {
    var preds := ForkPreds();
    forall t | 0 < t < |preds| ensures HasEarlierPred(preds, t) {
      assert preds[t][0] < t;
    }
  }

  lemma ForkSdoms()
    requires ValidPreds(ForkPreds())
    ensures var preds := ForkPreds();
            Sdom(preds, 1) == 0 && Sdom(preds, 2) == 0 && Sdom(preds, 3) == 1 && Sdom(preds, 4) == 2
  {
    var preds := ForkPreds();
    assert SdomFrom(preds, 1, 1) == 0 && SdomFrom(preds, 2, 1) == 0;
    assert SdomFrom(preds, 3, 1) == 1 && SdomFrom(preds, 4, 1) == 2;
  }

  lemma ForkIdoms()
    requires ValidPreds(ForkPreds())
    ensures var preds := ForkPreds();
            Idom(preds, 1) == 0 && Idom(preds, 2) == 0 && Idom(preds, 3) == 0 && Idom(preds, 4) == 2
  {
    var preds := ForkPreds();
    ForkSdoms();
    assert ArgMin(preds, 0, 0) == 0 && ArgMin(preds, 0, 1) == 1 && ArgMin(preds, 0, 2) == 2;
    assert ArgMin(preds, 1, 1) == 1 && ArgMin(preds, 1, 2) == 2 && ArgMin(preds, 1, 3) == 2;
    assert ArgMin(preds, 2, 2) == 2 && ArgMin(preds, 2, 3) == 2 && ArgMin(preds, 2, 4) == 2;
  }

  /** Only 2 leads to 4. */
  lemma IdomsDominate(v: nat)
    requires ValidPreds(ForkPreds()) && 0 < v < 5
    ensures Dominates(Fork(), 0, Idom(ForkPreds(), v), v)
  {
    ForkIdoms();
    forall path | EntryPath(Fork(), 0, path, v) ensures Idom(ForkPreds(), v) in path {
      assert path[0] == 0;
      if v == 4 {
        PathEdge(Fork(), path, |path| - 2);
        assert path[|path| - 2] == 2;
      }
    }
  }

  lemma {:induction false} AncestorsDominate(d: nat, v: nat)
    requires ValidPreds(ForkPreds()) && Discovered(ForkPreds()) && v < 5 && Ancestor(ForkPreds(), d, v)
    ensures Dominates(Fork(), 0, d, v)
    decreases v
  {
    var preds := ForkPreds();
    if d == v {
      forall path | EntryPath(Fork(), 0, path, v) ensures d in path {
        assert path[|path| - 1] in path;
      }
    } else {
      IdomIsEarlier(preds, v);
      AncestorsDominate(d, Idom(preds, v));
      IdomsDominate(v);
      DominatesTransitive(Fork(), 0, d, Idom(preds, v), v);
    }
  }

  /** Everything the tree reports dominates; at 4 the lower end of the chain wins only because it takes part. */
  lemma SoundWithHarm()
    ensures PredsOf(Fork(), ForkPreds()) && Discovered(ForkPreds())
    ensures Sound(Fork(), ForkPreds()) && !RootHarmless(ForkPreds(), 4)
  {
    ForkIsValid();
    forall d, v: nat | v < 5 && Ancestor(ForkPreds(), d, v) ensures Dominates(Fork(), 0, d, v) {
      AncestorsDominate(d, v);
    }
    ForkSdoms();
    ForkIdoms();
    assert ArgMin(ForkPreds(), 2, 2) == 2 && ArgMin(ForkPreds(), 2, 3) == 2 && ArgMin(ForkPreds(), 2, 4) == 2;
    assert !NoneBefore(ForkPreds(), 2, 4) by {
      assert Sdom(ForkPreds(), 3) == 1;
    }
  }
}
