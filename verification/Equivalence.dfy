/** Programs that run alike: chains of rewritings, insertions and erasures. */
module Equivalence {
  import opened Graphs
  import opened Occurrences
  import opened Code
  import opened Runs
  import opened Rewriting

  /** A program with the blocks its instructions belong to. */
  datatype Listing = Listing(p: Program, home: seq<nat>)

  /** What an observer sees of a run: how it ended, its blocks and the world. */
  datatype View<W> = Running(trail: seq<nat>, world: W) | Ended(trail: seq<nat>, world: W)
                   | Broken(trail: seq<nat>, at: nat, world: W)

  function Observe<W>(r: Run<W>): View<W> {
    match r
    case At(trail, s) => Running(trail, s.world)
    case Returned(trail, s) => Ended(trail, s.world)
    case Stopped(trail, c, s) => Broken(trail, c, s.world)
  }

  /** Instructions name instructions. */
  ghost predicate Closed(nodes: seq<Node>) {
    forall u, v: nat :: 0 <= u < |nodes| && ReadsValue(nodes[u], v) ==> v < |nodes|
  }

  /** Instructions are placed in reachable blocks, each below what it reads. */
  ghost predicate Good(g: Graph, entry: nat, l: Listing) {
    && ValidGraph(g) && entry < |g| && |l.home| == |l.p.nodes| && Closed(l.p.nodes)
    && Placed(l.p.blocks, l.home) && Ssa(g, entry, l.p, l.home)
    && (forall b :: 0 <= b < |l.p.blocks| && l.p.blocks[b] != [] ==> Reachable(g, entry, b))
  }

  // ----- rewriting -----

  /** The same operation with the same result for these values; a phi reads its entries only. */
  ghost predicate SameMeaning(nodes: seq<Node>, nodes': seq<Node>, u: nat, env: map<nat, int>)
    requires u < |nodes| <= |nodes'|
  {
    var n, n' := nodes[u], nodes'[u];
    && n'.op == n.op && n'.ty == n.ty && |n'.inputs| == |n.inputs|
    && (n.op.Phi? || (if IsPure(n) then Result(nodes', n', env) == Result(nodes, n, env)
                      else Vals(nodes', env, n'.inputs) == Vals(nodes, env, n.inputs)))
  }

  /** The same kinds of instructions under the same names, perhaps with new ones behind. */
  ghost predicate SameShape(nodes: seq<Node>, nodes': seq<Node>) {
    |nodes| <= |nodes'| && forall u :: 0 <= u < |nodes| ==> nodes'[u].op == nodes[u].op && nodes'[u].ty == nodes[u].ty
  }

  ghost predicate Rewrites(g: Graph, entry: nat, a: Listing, b: Listing) {
    && b.p.blocks == a.p.blocks && SameShape(a.p.nodes, b.p.nodes)
    && (forall u: nat :: u < |a.p.nodes| && In(a.p.blocks, a.home, u) ==> MeansTheSame(g, entry, a, b.p.nodes, u))
  }

  ghost predicate MeansTheSame(g: Graph, entry: nat, a: Listing, nodes': seq<Node>, u: nat)
    requires u < |a.p.nodes| <= |nodes'|
  {
    forall env :: AboveSettled(g, entry, a.p, a.home, u, env) ==> SameMeaning(a.p.nodes, nodes', u, env)
  }

  lemma SameValue(nodes: seq<Node>, nodes': seq<Node>, env: map<nat, int>, v: nat)
    requires SameShape(nodes, nodes') && v < |nodes|
    ensures Val(nodes', env, v) == Val(nodes, env, v)
  {
  }

  lemma {:induction false} ValsAt(nodes: seq<Node>, env: map<nat, int>, vs: seq<nat>, i: nat)
    requires i < |vs|
    ensures |Vals(nodes, env, vs)| == |vs| && Vals(nodes, env, vs)[i] == Val(nodes, env, vs[i])
  {
    if i < |vs| - 1 {
      ValsAt(nodes, env, vs[..|vs| - 1], i);
    } else {
      ValsLength(nodes, env, vs[..|vs| - 1]);
    }
  }

  lemma {:induction false} ValsLength(nodes: seq<Node>, env: map<nat, int>, vs: seq<nat>)
    ensures |Vals(nodes, env, vs)| == |vs|
  {
    if vs != [] {
      ValsLength(nodes, env, vs[..|vs| - 1]);
    }
  }

  lemma {:induction false} SamePhi(nodes: seq<Node>, nodes': seq<Node>, n: Node, k: nat, env: map<nat, int>, prev: nat)
    requires SameShape(nodes, nodes') && n.op.Phi? && k <= |n.op.entries|
    requires forall v: nat :: ReadsValue(n, v) ==> v < |nodes|
    ensures PhiVal(nodes', env, n.op.entries[..k], prev) == PhiVal(nodes, env, n.op.entries[..k], prev)
  {
    if k > 0 {
      assert n.op.entries[..k][..k - 1] == n.op.entries[..k - 1];
      SamePhi(nodes, nodes', n, k - 1, env, prev);
      assert ReadsValue(n, n.op.entries[k - 1].val);
      SameValue(nodes, nodes', env, n.op.entries[k - 1].val);
    }
  }

  /** The same meaning is the same step on every machine. */
  lemma SameMeaningSteps<W>(m: Machine<W>, nodes: seq<Node>, nodes': seq<Node>, prev: nat, u: nat, s: State<W>)
    requires u < |nodes| && SameShape(nodes, nodes') && SameMeaning(nodes, nodes', u, s.env)
    requires forall v: nat :: ReadsValue(nodes[u], v) ==> v < |nodes|
    ensures ExecOne(m, nodes', prev, u, s) == ExecOne(m, nodes, prev, u, s)
  {
    var n, n' := nodes[u], nodes'[u];
    if n.op.Phi? {
      assert n.op.entries[..|n.op.entries|] == n.op.entries;
      SamePhi(nodes, nodes', n, |n.op.entries|, s.env, prev);
    } else if IsCheck(n) {
      ValsAt(nodes, s.env, n.inputs, 0);
      ValsAt(nodes', s.env, n'.inputs, 0);
      ValsAt(nodes, s.env, n.inputs, |n.inputs| - 1);
      ValsAt(nodes', s.env, n'.inputs, |n.inputs| - 1);
    }
  }

  lemma RewritesPreserve<W(!new)>(m: Machine<W>, g: Graph, entry: nat, a: Listing, b: Listing, s: State<W>, n: nat)
    requires Good(g, entry, a) && Rewrites(g, entry, a, b)
    ensures RunFor(m, g, entry, b.p, s, n) == RunFor(m, g, entry, a.p, s, n)
  {
    forall u | In(a.p.blocks, a.home, u) ensures SameStep(m, g, entry, a.p, a.home, b.p.nodes, u) {
      assert MeansTheSame(g, entry, a, b.p.nodes, u);
      forall prev: nat, t: State<W> | AboveSettled(g, entry, a.p, a.home, u, t.env)
        ensures ExecOne(m, b.p.nodes, prev, u, t) == ExecOne(m, a.p.nodes, prev, u, t)
      {
        SameMeaningSteps(m, a.p.nodes, b.p.nodes, prev, u, t);
      }
    }
    RewritingPreservesRuns(m, g, entry, a.p, a.home, b.p.nodes, s, n);
    assert b.p == a.p.(nodes := b.p.nodes);
  }

  // ----- chains -----

  /** `b` is `a` without an instruction nobody reads. */
  ghost predicate Erases(g: Graph, entry: nat, a: Listing, b: Listing) {
    && b.home == a.home
    && exists x :: Dead(a.p, a.home, x) && NeverFails(g, entry, a.p, a.home, x) && b.p == Without(a.p, x)
  }

  ghost predicate Step(g: Graph, entry: nat, a: Listing, b: Listing) {
    && Good(g, entry, a) && Good(g, entry, b)
    && (Rewrites(g, entry, a, b) || Erases(g, entry, a, b) || Erases(g, entry, b, a))
  }

  /** From `a` to `b` by steps. */
  ghost predicate Chain(g: Graph, entry: nat, a: Listing, steps: seq<Listing>, b: Listing) {
    if steps == [] then a == b
    else Chain(g, entry, a, steps[..|steps| - 1], steps[|steps| - 1]) && Step(g, entry, steps[|steps| - 1], b)
  }

  lemma StepPreserves<W(!new)>(m: Machine<W>, g: Graph, entry: nat, a: Listing, b: Listing, s: State<W>, n: nat)
    requires Step(g, entry, a, b)
    ensures Observe(RunFor(m, g, entry, b.p, s, n)) == Observe(RunFor(m, g, entry, a.p, s, n))
  {
    var r, r' := RunFor(m, g, entry, a.p, s, n), RunFor(m, g, entry, b.p, s, n);
    if Rewrites(g, entry, a, b) {
      RewritesPreserve(m, g, entry, a, b, s, n);
    } else if Erases(g, entry, a, b) {
      var x :| Dead(a.p, a.home, x) && NeverFails(g, entry, a.p, a.home, x) && b.p == Without(a.p, x);
      ErasingDeadPreservesRuns(m, g, entry, a.p, a.home, x, s, n);
      BlankObserve(r', r, x);
    } else {
      var x :| Dead(b.p, b.home, x) && NeverFails(g, entry, b.p, b.home, x) && a.p == Without(b.p, x);
      ErasingDeadPreservesRuns(m, g, entry, b.p, b.home, x, s, n);
      BlankObserve(r', r, x);
    }
  }

  lemma BlankObserve<W>(r: Run<W>, r': Run<W>, x: nat)
    requires BlankRun(r, x) == BlankRun(r', x)
    ensures Observe(r) == Observe(r')
  {
    assert Observe(BlankRun(r, x)) == Observe(r);
    assert Observe(BlankRun(r', x)) == Observe(r');
  }

  /** All programs of a chain run alike: through the same blocks to the same end with the same world. */
  lemma {:induction false} ChainPreserves<W(!new)>(m: Machine<W>, g: Graph, entry: nat, a: Listing,
                                                   steps: seq<Listing>, b: Listing, s: State<W>, n: nat)
    requires Chain(g, entry, a, steps, b)
    ensures Observe(RunFor(m, g, entry, b.p, s, n)) == Observe(RunFor(m, g, entry, a.p, s, n))
  {
    if steps != [] {
      ChainPreserves(m, g, entry, a, steps[..|steps| - 1], steps[|steps| - 1], s, n);
      StepPreserves(m, g, entry, steps[|steps| - 1], b, s, n);
    }
  }

  lemma {:induction false} JoinChains(g: Graph, entry: nat, a: Listing, s: seq<Listing>, b: Listing, t: seq<Listing>,
                                      c: Listing)
    requires Chain(g, entry, a, s, b) && Chain(g, entry, b, t, c)
    ensures Chain(g, entry, a, s + t, c)
  {
    if t == [] {
      assert s + t == s;
    } else {
      JoinChains(g, entry, a, s, b, t[..|t| - 1], t[|t| - 1]);
      assert (s + t)[..|s + t| - 1] == s + t[..|t| - 1];
    }
  }
}
