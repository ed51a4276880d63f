/** A check that an equal one stands above never fails, so erasing it changes no run. */
module CheckRuns {
  import opened Graphs
  import opened Occurrences
  import opened Code
  import opened Runs

  /** Every erased instruction is a check, and an equal check stands above it. */
  ghost predicate Covered(g: Graph, entry: nat, p: Program, home: seq<nat>, erased: set<nat>) {
    forall c :: c in erased ==> c < |p.nodes| && IsCheck(p.nodes[c]) && HasAbove(g, entry, p, home, c)
  }

  ghost predicate HasAbove(g: Graph, entry: nat, p: Program, home: seq<nat>, c: nat)
    requires c < |p.nodes|
  {
    exists a: nat :: a < |p.nodes| && SameCheck(p.nodes[a], p.nodes[c]) && Above(g, entry, p.blocks, home, a, c)
  }

  ghost function Erase(p: Program, erased: set<nat>): Program {
    p.(blocks := KeepBlocks(p.blocks, erased))
  }

  /** If the run of a list gets to its place `i`, the check there passes. */
  ghost predicate PassesAt<W>(m: Machine<W>, nodes: seq<Node>, prev: nat, ids: seq<nat>, s: State<W>, i: nat)
    requires i < |ids|
  {
    && ids[i] < |nodes| && IsCheck(nodes[ids[i]]) && !nodes[ids[i]].op.Const?
    && (Exec(m, nodes, prev, ids[..i], s).Ran? ==>
          Passes(nodes, nodes[ids[i]], Exec(m, nodes, prev, ids[..i], s).state.env))
  }

  /** One block: leaving out checks that pass changes nothing. */
  lemma {:induction false} SameBlockRun<W>(m: Machine<W>, nodes: seq<Node>, prev: nat, ids: seq<nat>,
                                           erased: set<nat>, s: State<W>)
    requires forall i :: 0 <= i < |ids| && ids[i] in erased ==> PassesAt(m, nodes, prev, ids, s, i)
    ensures Exec(m, nodes, prev, Keep(ids, erased), s) == Exec(m, nodes, prev, ids, s)
  {
    if ids != [] {
      var front, last := ids[..|ids| - 1], ids[|ids| - 1];
      forall i | 0 <= i < |front| && front[i] in erased ensures PassesAt(m, nodes, prev, front, s, i) {
        assert front[..i] == ids[..i];
        assert PassesAt(m, nodes, prev, ids, s, i);
      }
      SameBlockRun(m, nodes, prev, front, erased, s);
      if last in erased {
        assert PassesAt(m, nodes, prev, ids, s, |ids| - 1);
      } else {
        assert (Keep(front, erased) + [last])[..|Keep(front, erased)|] == Keep(front, erased);
      }
    }
  }

  lemma ErasedPasses<W>(m: Machine<W>, g: Graph, entry: nat, p: Program, home: seq<nat>, erased: set<nat>,
                        s: State<W>, n: nat, i: nat)
    requires ValidGraph(g) && entry < |g| && Placed(p.blocks, home) && Ssa(g, entry, p, home)
    requires Covered(g, entry, p, home, erased) && RunFor(m, g, entry, p, s, n).At?
    requires var trail := RunFor(m, g, entry, p, s, n).trail;
             i < |Block(p.blocks, trail[|trail| - 1])| && Block(p.blocks, trail[|trail| - 1])[i] in erased
    ensures var r := RunFor(m, g, entry, p, s, n);
            PassesAt(m, p.nodes, Prev(r.trail), Block(p.blocks, r.trail[|r.trail| - 1]), r.state, i)
  {
    var r := RunFor(m, g, entry, p, s, n);
    var ids := Block(p.blocks, r.trail[|r.trail| - 1]);
    assert HasAbove(g, entry, p, home, ids[i]);
    var a: nat :| a < |p.nodes| && SameCheck(p.nodes[a], p.nodes[ids[i]]) && Above(g, entry, p.blocks, home, a, ids[i]);
    if Exec(m, p.nodes, Prev(r.trail), ids[..i], r.state).Ran? {
      AboveIsSettled(m, g, entry, p, home, s, n, i, a);
    }
  }

  lemma RunsAlike<W>(m: Machine<W>, g: Graph, entry: nat, p: Program, home: seq<nat>, erased: set<nat>,
                     s: State<W>, n: nat, r: Run<W>)
    requires ValidGraph(g) && entry < |g| && Placed(p.blocks, home) && Ssa(g, entry, p, home)
    requires Covered(g, entry, p, home, erased) && r == RunFor(m, g, entry, p, s, n) && r.trail != []
    ensures RunBlock(m, g, Erase(p, erased), r) == RunBlock(m, g, p, r)
  {
    if r.At? {
      var ids := Block(p.blocks, r.trail[|r.trail| - 1]);
      forall i | 0 <= i < |ids| && ids[i] in erased ensures PassesAt(m, p.nodes, Prev(r.trail), ids, r.state, i) {
        ErasedPasses(m, g, entry, p, home, erased, s, n, i);
      }
      SameBlockRun(m, p.nodes, Prev(r.trail), ids, erased, r.state);
    }
  }

  /** Erasing checks below equal ones preserves every run: the same blocks, the same values and world, and
      if a check fails, the same one. */
  lemma ErasingPreservesRuns<W(!new)>(m: Machine<W>, g: Graph, entry: nat, p: Program, home: seq<nat>,
                                      erased: set<nat>, s: State<W>, n: nat)
    requires ValidGraph(g) && entry < |g| && Placed(p.blocks, home) && Ssa(g, entry, p, home)
    requires Covered(g, entry, p, home, erased)
    ensures RunFor(m, g, entry, Erase(p, erased), s, n) == RunFor(m, g, entry, p, s, n)
  {
    var p' := Erase(p, erased);
    forall k: nat ensures AlikeAt(m, g, entry, p, p', s, k) {
      RunsAlike(m, g, entry, p, home, erased, s, k, RunFor(m, g, entry, p, s, k));
    }
    SameRuns(m, g, entry, p, p', s, n);
  }
}
