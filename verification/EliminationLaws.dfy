/** What check elimination leaves, by places in the lists and paths in the graph. */
module EliminationLaws {
  import opened Arithmetic
  import opened Graphs
  import opened DomSpec
  import opened Dominators
  import opened TreeSoundness
  import opened Occurrences
  import opened Code
  import opened Redundancy

  /** Zero checks of one value, or bounds checks of one index against one bound. */
  ghost predicate EqualChecks(nodes: seq<Node>, a: nat, c: nat) {
    && a < |nodes| && c < |nodes| && nodes[a].inputs == nodes[c].inputs
    && ((nodes[a].op == ZeroCheck && nodes[c].op == ZeroCheck && |nodes[a].inputs| == 1)
       || (nodes[a].op == Bin(BoundsCheck) && nodes[c].op == Bin(BoundsCheck) && |nodes[a].inputs| == 2))
  }

  /** `a` stands at place `i` of block `b`. */
  ghost predicate StandsAt(p: Program, b: nat, i: nat, a: nat) {
    b < |p.blocks| && i < |p.blocks[b]| && p.blocks[b][i] == a
  }

  /** The outcome of the pass: the set it erases, and what it built to decide. */
  ghost predicate Eliminated(g: Graph, entry: nat, predLists: Graph, p: Program, home: seq<nat>, order: seq<nat>,
                             preds: seq<seq<nat>>, times: map<nat, nat>, rpo: seq<nat>, erased: set<nat>)
  {
    && Placed(p.blocks, home) && Built(g, entry, predLists, order, preds) && IsTimes(g, entry, order, times)
    && TreeFits(preds, times) && (forall b :: b in rpo <==> Reachable(g, entry, b))
    && forall c :: c in erased <==> IsErased(p, home, preds, times, rpo, c)
  }

  lemma StandsAtHome(p: Program, home: seq<nat>, b: nat, i: nat, a: nat)
    requires Placed(p.blocks, home) && StandsAt(p, b, i, a)
    ensures In(p.blocks, home, a) && home[a] == b
  {
    assert a in p.blocks[b];
    assert AtHome(home, b, a);
  }

  /** Of two equal checks in one reachable block the later one is erased, and is in no list any more. */
  lemma LaterIsErased(g: Graph, entry: nat, predLists: Graph, p: Program, home: seq<nat>, order: seq<nat>,
                      preds: seq<seq<nat>>, times: map<nat, nat>, rpo: seq<nat>, erased: set<nat>, b: nat, i: nat,
                      j: nat, a: nat, c: nat)
    requires Eliminated(g, entry, predLists, p, home, order, preds, times, rpo, erased)
    requires StandsAt(p, b, i, a) && StandsAt(p, b, j, c) && i < j && EqualChecks(p.nodes, a, c)
    requires Reachable(g, entry, b)
    ensures c in erased && forall k :: 0 <= k < |p.blocks| ==> c !in KeepBlocks(p.blocks, erased)[k]
  {
    StandsAtHome(p, home, b, i, a);
    StandsAtHome(p, home, b, j, c);
    PrecedesAt(p.blocks[b], a, j);
    assert p.blocks[b][..j][i] == a;
    assert EqualAbove(p, home, preds, times, a, c);
    IsGone(p, erased, c);
  }

  lemma IsGone(p: Program, erased: set<nat>, c: nat)
    requires c in erased
    ensures forall k :: 0 <= k < |p.blocks| ==> c !in KeepBlocks(p.blocks, erased)[k]
  {
    forall k | 0 <= k < |p.blocks| ensures c !in KeepBlocks(p.blocks, erased)[k] {
      KeepMembers(p.blocks[k], erased, c);
    }
  }

  /** A reachable check is erased if an equal one stands in another block that dominates its block even with the
      edges to the node discovered next. */
  lemma DominatedIsErased(g: Graph, entry: nat, predLists: Graph, p: Program, home: seq<nat>, order: seq<nat>,
                          preds: seq<seq<nat>>, times: map<nat, nat>, rpo: seq<nat>, erased: set<nat>, b: nat, i: nat,
                          d: nat, j: nat, a: nat, c: nat)
    requires Eliminated(g, entry, predLists, p, home, order, preds, times, rpo, erased)
    requires StandsAt(p, d, i, a) && StandsAt(p, b, j, c) && d != b && EqualChecks(p.nodes, a, c)
    requires Reachable(g, entry, b) && Reachable(g, entry, d) && Dominates(WithChain(g, order), entry, d, b)
    ensures c in erased && forall k :: 0 <= k < |p.blocks| ==> c !in KeepBlocks(p.blocks, erased)[k]
  {
    StandsAtHome(p, home, d, i, a);
    StandsAtHome(p, home, b, j, c);
    BlockReportedIff(g, entry, predLists, order, preds, times[d], times[b]);
    assert EqualAbove(p, home, preds, times, a, c);
    IsGone(p, erased, c);
  }

  /** A check is erased only if an equal one stands before it in its block, or in another block that the tree reports
      above; where the comparisons of its builder are harmless, this block dominates with the added edges. */
  lemma ErasedHasEqual(g: Graph, entry: nat, predLists: Graph, p: Program, home: seq<nat>, order: seq<nat>,
                       preds: seq<seq<nat>>, times: map<nat, nat>, rpo: seq<nat>, erased: set<nat>, c: nat)
    returns (b: nat, j: nat, d: nat, i: nat, a: nat)
    requires Eliminated(g, entry, predLists, p, home, order, preds, times, rpo, erased) && c in erased
    ensures StandsAt(p, b, j, c) && StandsAt(p, d, i, a) && EqualChecks(p.nodes, a, c) && Reachable(g, entry, b)
    ensures d == b ==> i < j
    ensures d != b ==> Reachable(g, entry, d) && BlockAbove(preds, times, d, b)
                       && (AllHarmless(preds, |preds|) ==> Dominates(WithChain(g, order), entry, d, b))
  {
    a :| EqualAbove(p, home, preds, times, a, c);
    b, d := home[c], home[a];
    j :| j < |p.blocks[b]| && p.blocks[b][j] == c;
    if d == b {
      PrecedesAt(p.blocks[b], a, j);
      i :| i < j && p.blocks[b][..j][i] == a;
    } else {
      i :| i < |p.blocks[d]| && p.blocks[d][i] == a;
      BlockReportedIff(g, entry, predLists, order, preds, times[d], times[b]);
    }
  }

  /** What is not erased stays in its block, in the old order; only checks are erased. */
  lemma RestStays(g: Graph, entry: nat, predLists: Graph, p: Program, home: seq<nat>, order: seq<nat>,
                  preds: seq<seq<nat>>, times: map<nat, nat>, rpo: seq<nat>, erased: set<nat>, b: nat, c: nat)
    requires Eliminated(g, entry, predLists, p, home, order, preds, times, rpo, erased) && b < |p.blocks|
    ensures c in KeepBlocks(p.blocks, erased)[b] <==> c in p.blocks[b] && c !in erased
    ensures c in erased ==> c < |p.nodes| && (p.nodes[c].op == ZeroCheck || p.nodes[c].op == Bin(BoundsCheck))
  {
    KeepMembers(p.blocks[b], erased, c);
  }

  /** The relation that decides by true dominance, in the same terms. */
  lemma AboveIff(g: Graph, entry: nat, p: Program, home: seq<nat>, b: nat, j: nat, c: nat, d: nat, i: nat, a: nat)
    requires Placed(p.blocks, home) && StandsAt(p, b, j, c) && StandsAt(p, d, i, a)
    ensures Above(g, entry, p.blocks, home, a, c) <==> if d == b then i < j else Dominates(g, entry, d, b)
  {
    StandsAtHome(p, home, d, i, a);
    StandsAtHome(p, home, b, j, c);
    if d == b {
      PrecedesAt(p.blocks[b], a, j);
      if i < j {
        assert p.blocks[b][..j][i] == a;
      } else if a in p.blocks[b][..j] {
        var k: nat :| k < j && p.blocks[b][..j][k] == a;
        SamePlace(p.blocks[b], k, i);
      }
    }
  }

  lemma {:induction false} SamePlace(list: seq<nat>, k: nat, i: nat)
    requires NoDuplicates(list) && k < |list| && i < |list| && list[k] == list[i]
    ensures k == i
  {
    var front := list[..|list| - 1];
    assert forall x :: 0 <= x < |front| ==> list[x] == front[x] && front[x] in front;
    if k < |front| && i < |front| {
      SamePlace(front, k, i);
    }
  }
}
