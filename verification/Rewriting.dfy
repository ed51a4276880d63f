/** Two ways to change code that keep every run. */
module Rewriting {
  // Instructions that do the same in every state in which the definitions above them are settled may be
  // exchanged, and a pure instruction nobody reads may go.

  import opened Graphs
  import opened Occurrences
  import opened Code
  import opened Runs

  ghost predicate AboveSettled(g: Graph, entry: nat, p: Program, home: seq<nat>, u: nat, env: map<nat, int>) {
    forall a: nat :: a < |p.nodes| && !p.nodes[a].op.Phi? && Above(g, entry, p.blocks, home, a, u) ==>
        Settled(p.nodes, a, env)
  }

  // ----- exchanging instructions -----

  /** The instruction `u` of `nodes'` does the same as that of `p` wherever it may run. */
  ghost predicate SameStep<W(!new)>(m: Machine<W>, g: Graph, entry: nat, p: Program, home: seq<nat>,
                                    nodes': seq<Node>, u: nat)
  {
    forall prev: nat, s: State<W> :: AboveSettled(g, entry, p, home, u, s.env) ==>
        ExecOne(m, nodes', prev, u, s) == ExecOne(m, p.nodes, prev, u, s)
  }

  lemma {:induction false} SameList<W>(m: Machine<W>, nodes: seq<Node>, nodes': seq<Node>, prev: nat, ids: seq<nat>,
                                       s: State<W>)
    requires forall i :: 0 <= i < |ids| ==> SameAt(m, nodes, nodes', prev, ids, s, i)
    ensures Exec(m, nodes', prev, ids, s) == Exec(m, nodes, prev, ids, s)
  {
    if ids != [] {
      var front := ids[..|ids| - 1];
      forall i | 0 <= i < |front| ensures SameAt(m, nodes, nodes', prev, front, s, i) {
        assert front[..i] == ids[..i];
        assert SameAt(m, nodes, nodes', prev, ids, s, i);
      }
      SameList(m, nodes, nodes', prev, front, s);
      assert SameAt(m, nodes, nodes', prev, ids, s, |ids| - 1);
    }
  }

  ghost predicate SameAt<W>(m: Machine<W>, nodes: seq<Node>, nodes': seq<Node>, prev: nat, ids: seq<nat>,
                            s: State<W>, i: nat)
    requires i < |ids|
  {
    var before := Exec(m, nodes, prev, ids[..i], s);
    before.Ran? ==> ExecOne(m, nodes', prev, ids[i], before.state) == ExecOne(m, nodes, prev, ids[i], before.state)
  }

  lemma SettledAt<W>(m: Machine<W>, g: Graph, entry: nat, p: Program, home: seq<nat>, s: State<W>, n: nat, i: nat,
                     r: Run<W>, ids: seq<nat>)
    requires ValidGraph(g) && entry < |g| && Placed(p.blocks, home) && Ssa(g, entry, p, home)
    requires r == RunFor(m, g, entry, p, s, n) && r.At? && ids == Block(p.blocks, r.trail[|r.trail| - 1])
    requires i < |ids| && Exec(m, p.nodes, Prev(r.trail), ids[..i], r.state).Ran?
    ensures AboveSettled(g, entry, p, home, ids[i], Exec(m, p.nodes, Prev(r.trail), ids[..i], r.state).state.env)
  {
    var env := Exec(m, p.nodes, Prev(r.trail), ids[..i], r.state).state.env;
    forall a: nat | a < |p.nodes| && !p.nodes[a].op.Phi? && Above(g, entry, p.blocks, home, a, ids[i])
      ensures Settled(p.nodes, a, env)
    {
      AboveIsSettled(m, g, entry, p, home, s, n, i, a);
    }
  }

  lemma RewrittenAlike<W(!new)>(m: Machine<W>, g: Graph, entry: nat, p: Program, home: seq<nat>, nodes': seq<Node>,
                                s: State<W>, n: nat, r: Run<W>)
    requires ValidGraph(g) && entry < |g| && Placed(p.blocks, home) && Ssa(g, entry, p, home)
    requires forall u :: In(p.blocks, home, u) ==> SameStep(m, g, entry, p, home, nodes', u)
    requires r == RunFor(m, g, entry, p, s, n) && r.trail != []
    ensures RunBlock(m, g, p.(nodes := nodes'), r) == RunBlock(m, g, p, r)
  {
    if r.At? {
      var ids, prev := Block(p.blocks, r.trail[|r.trail| - 1]), Prev(r.trail);
      forall i | 0 <= i < |ids| ensures SameAt(m, p.nodes, nodes', prev, ids, r.state, i) {
        if Exec(m, p.nodes, prev, ids[..i], r.state).Ran? {
          SettledAt(m, g, entry, p, home, s, n, i, r, ids);
          MemberIsIn(p.blocks, home, r.trail[|r.trail| - 1], i);
          assert SameStep(m, g, entry, p, home, nodes', ids[i]);
        }
      }
      SameList(m, p.nodes, nodes', prev, ids, r.state);
    }
  }

  /** Equational rewriting is sound on runs, loops included. */
  lemma RewritingPreservesRuns<W(!new)>(m: Machine<W>, g: Graph, entry: nat, p: Program, home: seq<nat>,
                                        nodes': seq<Node>, s: State<W>, n: nat)
    requires ValidGraph(g) && entry < |g| && Placed(p.blocks, home) && Ssa(g, entry, p, home)
    requires forall u :: In(p.blocks, home, u) ==> SameStep(m, g, entry, p, home, nodes', u)
    ensures RunFor(m, g, entry, p.(nodes := nodes'), s, n) == RunFor(m, g, entry, p, s, n)
  {
    var p' := p.(nodes := nodes');
    forall k: nat ensures AlikeAt(m, g, entry, p, p', s, k) {
      RewrittenAlike(m, g, entry, p, home, nodes', s, k, RunFor(m, g, entry, p, s, k));
    }
    SameRuns(m, g, entry, p, p', s, n);
  }

  // ----- erasing an instruction nobody reads -----

  predicate ReadsValue(n: Node, x: nat) {
    x in n.inputs || (n.op.Phi? && exists i :: 0 <= i < |n.op.entries| && n.op.entries[i].val == x)
  }

  /** `x` is pure or a constant, and no instruction of the blocks reads it. */
  ghost predicate Dead(p: Program, home: seq<nat>, x: nat) {
    && x < |p.nodes| && (IsPure(p.nodes[x]) || p.nodes[x].op.Const?)
    && (forall u: nat :: u < |p.nodes| && In(p.blocks, home, u) ==> !ReadsValue(p.nodes[u], x))
  }

  ghost predicate NeverFails(g: Graph, entry: nat, p: Program, home: seq<nat>, x: nat)
    requires x < |p.nodes|
  {
    IsPure(p.nodes[x]) ==>
      forall env :: AboveSettled(g, entry, p, home, x, env) ==> Result(p.nodes, p.nodes[x], env).Some?
  }

  /** The state up to the value of `x`. */
  ghost function Blank<W>(s: State<W>, x: nat): State<W> {
    s.(env := s.env[x := 0])
  }

  ghost function BlankOutcome<W>(o: Outcome<W>, x: nat): Outcome<W> {
    o.(state := Blank(o.state, x))
  }

  ghost function BlankRun<W>(r: Run<W>, x: nat): Run<W> {
    r.(state := Blank(r.state, x))
  }

  lemma SameVal<W>(nodes: seq<Node>, s: State<W>, s': State<W>, x: nat, v: nat)
    requires Blank(s, x) == Blank(s', x) && v != x
    ensures Val(nodes, s'.env, v) == Val(nodes, s.env, v)
  {
    assert v in s.env <==> v in s.env[x := 0];
    assert v in s'.env <==> v in s'.env[x := 0];
    assert v in s.env ==> s.env[x := 0][v] == s.env[v];
    assert v in s'.env ==> s'.env[x := 0][v] == s'.env[v];
  }

  lemma {:induction false} SameVals<W>(nodes: seq<Node>, s: State<W>, s': State<W>, x: nat, vs: seq<nat>)
    requires Blank(s, x) == Blank(s', x) && x !in vs
    ensures Vals(nodes, s'.env, vs) == Vals(nodes, s.env, vs)
  {
    if vs != [] {
      SameVals(nodes, s, s', x, vs[..|vs| - 1]);
      SameVal(nodes, s, s', x, vs[|vs| - 1]);
    }
  }

  lemma {:induction false} SamePhiVal<W>(nodes: seq<Node>, s: State<W>, s': State<W>, x: nat, n: Node, k: nat,
                                         prev: nat)
    requires Blank(s, x) == Blank(s', x) && n.op.Phi? && !ReadsValue(n, x) && k <= |n.op.entries|
    ensures PhiVal(nodes, s'.env, n.op.entries[..k], prev) == PhiVal(nodes, s.env, n.op.entries[..k], prev)
  {
    if k > 0 {
      assert n.op.entries[..k][..k - 1] == n.op.entries[..k - 1];
      SamePhiVal(nodes, s, s', x, n, k - 1, prev);
      SameVal(nodes, s, s', x, n.op.entries[k - 1].val);
    }
  }

  lemma BlankUpdate<W>(s: State<W>, s': State<W>, x: nat, id: nat, value: int)
    requires Blank(s, x) == Blank(s', x) && id != x
    ensures Blank(s.(env := s.env[id := value]), x) == Blank(s'.(env := s'.env[id := value]), x)
  {
    assert s.env[id := value][x := 0] == s.env[x := 0][id := value];
    assert s'.env[id := value][x := 0] == s'.env[x := 0][id := value];
  }

  /** An instruction that does not read `x` does not depend on it. */
  lemma OneIgnores<W>(m: Machine<W>, nodes: seq<Node>, prev: nat, id: nat, s: State<W>, s': State<W>, x: nat)
    requires Blank(s, x) == Blank(s', x) && id != x && (id < |nodes| ==> !ReadsValue(nodes[id], x))
    ensures BlankOutcome(ExecOne(m, nodes, prev, id, s'), x) == BlankOutcome(ExecOne(m, nodes, prev, id, s), x)
  {
    if id < |nodes| && nodes[id].op.Const? {
      BlankUpdate(s, s', x, id, nodes[id].op.value);
    } else if id < |nodes| {
      var n := nodes[id];
      SameVals(nodes, s, s', x, n.inputs);
      if IsCheck(n) || IsPure(n) {
        SameVal(nodes, s, s', x, n.inputs[0]);
        SameVal(nodes, s, s', x, n.inputs[|n.inputs| - 1]);
        if IsPure(n) && Result(nodes, n, s.env).Some? {
          BlankUpdate(s, s', x, id, Result(nodes, n, s.env).value);
        }
      } else if n.op.Phi? {
        assert n.op.entries[..|n.op.entries|] == n.op.entries;
        SamePhiVal(nodes, s, s', x, n, |n.op.entries|, prev);
        BlankUpdate(s, s', x, id, PhiVal(nodes, s.env, n.op.entries, prev));
      } else {
        BlankUpdate(s, s', x, id, m.op(id, prev, Vals(nodes, s.env, n.inputs), s.world).0);
      }
    }
  }

  /** Running `x` itself, where it cannot fail. */
  lemma OneIsDead<W>(m: Machine<W>, nodes: seq<Node>, prev: nat, s: State<W>, x: nat)
    requires x < |nodes| && (IsPure(nodes[x]) || nodes[x].op.Const?)
    requires IsPure(nodes[x]) ==> Result(nodes, nodes[x], s.env).Some?
    ensures ExecOne(m, nodes, prev, x, s).Ran? && Blank(ExecOne(m, nodes, prev, x, s).state, x) == Blank(s, x)
  {
    if !nodes[x].op.Const? {
      var v := Result(nodes, nodes[x], s.env).value;
      assert s.env[x := v][x := 0] == s.env[x := 0];
    }
  }

  lemma {:induction false} ListIgnores<W>(m: Machine<W>, nodes: seq<Node>, prev: nat, ids: seq<nat>, s: State<W>,
                                          s': State<W>, x: nat)
    requires Blank(s, x) == Blank(s', x) && x < |nodes| && (IsPure(nodes[x]) || nodes[x].op.Const?)
    requires forall i :: 0 <= i < |ids| && ids[i] < |nodes| ==> !ReadsValue(nodes[ids[i]], x)
    requires forall i :: 0 <= i < |ids| && ids[i] == x ==> ResultAt(m, nodes, prev, ids, s, i)
    ensures BlankOutcome(Exec(m, nodes, prev, Keep(ids, {x}), s'), x) == BlankOutcome(Exec(m, nodes, prev, ids, s), x)
  {
    if ids != [] {
      var front, last := ids[..|ids| - 1], ids[|ids| - 1];
      forall i | 0 <= i < |front| && front[i] == x ensures ResultAt(m, nodes, prev, front, s, i) {
        assert front[..i] == ids[..i];
        assert ResultAt(m, nodes, prev, ids, s, i);
      }
      ListIgnores(m, nodes, prev, front, s, s', x);
      var o, o' := Exec(m, nodes, prev, front, s), Exec(m, nodes, prev, Keep(front, {x}), s');
      if last == x {
        assert ResultAt(m, nodes, prev, ids, s, |ids| - 1);
        if o.Ran? {
          OneIsDead(m, nodes, prev, o.state, x);
        }
      } else {
        assert (Keep(front, {x}) + [last])[..|Keep(front, {x})|] == Keep(front, {x});
        if o.Ran? {
          OneIgnores(m, nodes, prev, last, o.state, o'.state, x);
        }
      }
    }
  }

  /** If the run of the list gets to the place `i`, the instruction there has a result. */
  ghost predicate ResultAt<W>(m: Machine<W>, nodes: seq<Node>, prev: nat, ids: seq<nat>, s: State<W>, i: nat)
    requires i < |ids|
  {
    var before := Exec(m, nodes, prev, ids[..i], s);
    ids[i] < |nodes| && IsPure(nodes[ids[i]]) && before.Ran? ==> Result(nodes, nodes[ids[i]], before.state.env).Some?
  }

  ghost function Without(p: Program, x: nat): Program {
    p.(blocks := KeepBlocks(p.blocks, {x}))
  }

  lemma BlockIgnores<W>(m: Machine<W>, g: Graph, p: Program, r: Run<W>, r': Run<W>, x: nat)
    requires r.At? && r.trail != [] && r'.trail != [] && BlankRun(r', x) == BlankRun(r, x)
    requires var b := r.trail[|r.trail| - 1];
             BlankOutcome(Exec(m, p.nodes, Prev(r.trail), Block(Without(p, x).blocks, b), r'.state), x)
             == BlankOutcome(Exec(m, p.nodes, Prev(r.trail), Block(p.blocks, b), r.state), x)
    ensures BlankRun(RunBlock(m, g, Without(p, x), r'), x) == BlankRun(RunBlock(m, g, p, r), x)
  {
  }

  lemma DeadStep<W(!new)>(m: Machine<W>, g: Graph, entry: nat, p: Program, home: seq<nat>, x: nat, s: State<W>, n: nat,
                          r: Run<W>, r': Run<W>)
    requires ValidGraph(g) && entry < |g| && Placed(p.blocks, home) && Ssa(g, entry, p, home)
    requires Dead(p, home, x) && NeverFails(g, entry, p, home, x)
    requires r == RunFor(m, g, entry, p, s, n) && r.At? && r'.trail != [] && BlankRun(r', x) == BlankRun(r, x)
    ensures BlankRun(RunBlock(m, g, Without(p, x), r'), x) == BlankRun(RunBlock(m, g, p, r), x)
  {
    var ids, prev := Block(p.blocks, r.trail[|r.trail| - 1]), Prev(r.trail);
    forall i | 0 <= i < |ids| && ids[i] == x ensures ResultAt(m, p.nodes, prev, ids, r.state, i) {
      if Exec(m, p.nodes, prev, ids[..i], r.state).Ran? {
        SettledAt(m, g, entry, p, home, s, n, i, r, ids);
      }
    }
    forall i | 0 <= i < |ids| && ids[i] < |p.nodes| ensures !ReadsValue(p.nodes[ids[i]], x) {
      MemberIsIn(p.blocks, home, r.trail[|r.trail| - 1], i);
    }
    ListIgnores(m, p.nodes, prev, ids, r.state, r'.state, x);
    BlockIgnores(m, g, p, r, r', x);
  }

  /** Erasing an instruction nobody reads preserves every run up to its own value; read the other way, so
      does putting one in. */
  lemma {:induction false} ErasingDeadPreservesRuns<W(!new)>(m: Machine<W>, g: Graph, entry: nat, p: Program,
                                                             home: seq<nat>, x: nat, s: State<W>, n: nat)
    requires ValidGraph(g) && entry < |g| && Placed(p.blocks, home) && Ssa(g, entry, p, home)
    requires Dead(p, home, x) && NeverFails(g, entry, p, home, x)
    ensures BlankRun(RunFor(m, g, entry, Without(p, x), s, n), x) == BlankRun(RunFor(m, g, entry, p, s, n), x)
  {
    if n > 0 {
      ErasingDeadPreservesRuns(m, g, entry, p, home, x, s, n - 1);
      var r, r' := RunFor(m, g, entry, p, s, n - 1), RunFor(m, g, entry, Without(p, x), s, n - 1);
      if r.At? {
        DeadStep(m, g, entry, p, home, x, s, n - 1, r, r');
      }
    }
  }
}
