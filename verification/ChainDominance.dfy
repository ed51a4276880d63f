/** What the computed tree reports, in terms of the graph with the chain added. */
module ChainDominance {
  import opened Graphs
  import opened DomSpec

  /** A dominator of that graph is reported, whatever the comparisons: the tree can only report too much. */
  lemma {:induction false} ChainedDominatorIsReported(preds: seq<seq<nat>>, d: nat, v: nat)
    requires ValidPreds(preds) && Discovered(preds) && d <= v < |preds| && NoneBefore(preds, d, v)
    ensures Ancestor(preds, d, v)
    decreases v
  {
    if d < v {
      SdomIsEarlier(preds, v);
      IdomIsEarlier(preds, v);
      var t, u := Sdom(preds, v), FirstIdom(preds, v);
      if Idom(preds, v) == t {
        ChainedDominatorIsReported(preds, d, t);
      } else {
        assert Idom(preds, v) == Idom(preds, u);
        FirstIdomInside(preds, v);
        ChainedDominatorIsReported(preds, d, u);
      }
    }
  }

  lemma FirstIdomInside(preds: seq<seq<nat>>, v: nat)
    requires ValidPreds(preds) && Discovered(preds) && 0 < v < |preds| && FirstIdom(preds, v) != Sdom(preds, v)
    ensures Sdom(preds, v) < FirstIdom(preds, v) < v
  {
    SdomIsBelow(preds, v, |preds[v]|);
  }

  lemma {:induction false} ReportedIsChained(g: Graph, preds: seq<seq<nat>>, d: nat, v: nat)
    requires PredsOf(g, preds) && Discovered(preds) && v < |g| && AllHarmless(preds, |preds|) && Ancestor(preds, d, v)
    ensures d <= v && NoneBefore(preds, d, v)
    decreases v
  {
    if d != v {
      IdomIsEarlier(preds, v);
      IdomsExactIff(preds, |preds|);
      var m := Idom(preds, v);
      assert Immediate(preds, m, v);
      ReportedIsChained(g, preds, d, m);
    }
  }

  /** Where the comparisons are harmless, the tree reports `d` exactly if `d` dominates even with an edge from every
      node to the one discovered next: a dominator of the graph is missed exactly if such an edge opens a way
      around it. */
  lemma ReportedIff(g: Graph, preds: seq<seq<nat>>, d: nat, v: nat)
    requires PredsOf(g, preds) && Discovered(preds) && v < |g| && AllHarmless(preds, |preds|)
    ensures Ancestor(preds, d, v) <==> Dominates(Chained(g), 0, d, v)
  {
    if Ancestor(preds, d, v) {
      ReportedIsChained(g, preds, d, v);
      ChainedDominanceIff(g, preds, d, v);
    }
    if Dominates(Chained(g), 0, d, v) {
      ChainedIsEarlier(g, d, v);
      ChainedDominanceIff(g, preds, d, v);
      ChainedDominatorIsReported(preds, d, v);
    }
  }

  lemma ChainedIsEarlier(g: Graph, d: nat, v: nat)
    requires v < |g| && Dominates(Chained(g), 0, d, v)
    ensures d <= v
  {
    UptoIsPath(g, 0, v);
    assert EntryPath(Chained(g), 0, Upto(0, v), v);
    var i :| 0 <= i < |Upto(0, v)| && Upto(0, v)[i] == d;
  }

  // ----- immediate dominators -----

  /** `d` is the closest dominator of `v` besides `v` itself: all others dominate it. */
  ghost predicate IsIdom(h: Graph, d: nat, v: nat) {
    && d != v && Dominates(h, 0, d, v)
    && (forall e :: e != v && Dominates(h, 0, e, v) ==> Dominates(h, 0, e, d))
  }

  lemma ImmediateIff(g: Graph, preds: seq<seq<nat>>, d: nat, v: nat)
    requires PredsOf(g, preds) && Discovered(preds) && d < |g| && v < |g|
    ensures Immediate(preds, d, v) <==> IsIdom(Chained(g), d, v)
  {
    if Immediate(preds, d, v) {
      ChainedDominanceIff(g, preds, d, v);
      forall e | e != v && Dominates(Chained(g), 0, e, v) ensures Dominates(Chained(g), 0, e, d) {
        ChainedIsEarlier(g, e, v);
        ChainedDominanceIff(g, preds, e, v);
        ChainedDominanceIff(g, preds, e, d);
      }
    }
    if IsIdom(Chained(g), d, v) {
      ChainedIsEarlier(g, d, v);
      ChainedDominanceIff(g, preds, d, v);
      forall e | d < e < v ensures !NoneBefore(preds, e, v) {
        ChainedDominanceIff(g, preds, e, v);
        if NoneBefore(preds, e, v) {
          ChainedIsEarlier(g, e, d);
        }
      }
    }
  }

  ghost predicate TreeIsExact(g: Graph, preds: seq<seq<nat>>)
    requires ValidPreds(preds)
  {
    forall v :: 0 < v < |preds| ==> IsIdom(Chained(g), Idom(preds, v), v)
  }

  lemma IdomAtIff(g: Graph, preds: seq<seq<nat>>, v: nat)
    requires PredsOf(g, preds) && Discovered(preds) && 0 < v < |preds|
    ensures IsIdom(Chained(g), Idom(preds, v), v) <==> Immediate(preds, Idom(preds, v), v)
  {
    IdomIsEarlier(preds, v);
    ImmediateIff(g, preds, Idom(preds, v), v);
  }

  lemma AllIdomsIff(g: Graph, preds: seq<seq<nat>>)
    requires PredsOf(g, preds) && Discovered(preds)
    ensures TreeIsExact(g, preds) <==> AllImmediate(preds, |preds|)
  {
    if TreeIsExact(g, preds) {
      forall v | 0 < v < |preds| ensures Immediate(preds, Idom(preds, v), v) {
        IdomAtIff(g, preds, v);
      }
    }
    if AllImmediate(preds, |preds|) {
      forall v | 0 < v < |preds| ensures IsIdom(Chained(g), Idom(preds, v), v) {
        IdomAtIff(g, preds, v);
      }
    }
  }

  /** The computed tree is the dominator tree of the chained graph exactly when the comparisons are harmless. */
  lemma TreeIsExactIff(g: Graph, preds: seq<seq<nat>>)
    requires PredsOf(g, preds) && Discovered(preds)
    ensures TreeIsExact(g, preds) <==> AllHarmless(preds, |preds|)
  {
    AllIdomsIff(g, preds);
    IdomsExactIff(preds, |preds|);
  }
}
