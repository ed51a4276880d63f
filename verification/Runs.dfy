/** Runs of a program, block by block. */
module Runs {
  import opened Wrappers
  import opened Graphs
  import opened Arithmetic
  import opened Occurrences
  import opened Code

  /** What the instructions outside the model do: `op` gives the value and the new world of an instruction
      from the block the run came from, the values of its inputs and the world; `next` picks one of the
      successors of a block, or ends the run. */
  datatype Machine<!W> = Machine(op: (nat, nat, seq<int>, W) -> (int, W), next: (nat, W) -> Option<nat>)

  datatype State<W> = State(env: map<nat, int>, world: W)

  datatype Outcome<W> = Ran(state: State<W>) | Failed(at: nat, state: State<W>)

  /** The value of `v`: what it last was given, cast to its type. */
  function Val(nodes: seq<Node>, env: map<nat, int>, v: nat): int {
    if v >= |nodes| then 0 else Wrap(nodes[v].ty, if v in env then env[v] else 0)
  }

  function Vals(nodes: seq<Node>, env: map<nat, int>, vs: seq<nat>): (r: seq<int>) {
    if vs == [] then [] else Vals(nodes, env, vs[..|vs| - 1]) + [Val(nodes, env, vs[|vs| - 1])]
  }

  predicate Passes(nodes: seq<Node>, n: Node, env: map<nat, int>)
    requires IsCheck(n)
  {
    if n.op.ZeroCheck? then Val(nodes, env, n.inputs[0]) != 0
    else 0 <= Val(nodes, env, n.inputs[0]) < Val(nodes, env, n.inputs[1])
  }

  function Result(nodes: seq<Node>, n: Node, env: map<nat, int>): Option<int>
    requires IsPure(n)
  {
    Eval(n.op.oper, n.ty, Val(nodes, env, n.inputs[0]), Val(nodes, env, n.inputs[1]))
  }

  /** The value of the entry for the block the run came from. */
  function PhiVal(nodes: seq<Node>, env: map<nat, int>, entries: seq<Ir.PhiEntry>, prev: nat): int {
    if entries == [] then 0
    else if entries[|entries| - 1].bb == prev then Val(nodes, env, entries[|entries| - 1].val)
    else PhiVal(nodes, env, entries[..|entries| - 1], prev)
  }

  function ExecOne<W>(m: Machine<W>, nodes: seq<Node>, prev: nat, id: nat, s: State<W>): Outcome<W> {
    if id >= |nodes| then Ran(s)
    else if nodes[id].op.Const? then Ran(s.(env := s.env[id := nodes[id].op.value]))
    else if IsCheck(nodes[id]) then
      if Passes(nodes, nodes[id], s.env) then Ran(s) else Failed(id, s)
    else if IsPure(nodes[id]) then
      match Result(nodes, nodes[id], s.env)
      case None => Failed(id, s)
      case Some(v) => Ran(s.(env := s.env[id := v]))
    else if nodes[id].op.Phi? then
      Ran(s.(env := s.env[id := PhiVal(nodes, s.env, nodes[id].op.entries, prev)]))
    else
      var (value, world) := m.op(id, prev, Vals(nodes, s.env, nodes[id].inputs), s.world);
      Ran(State(s.env[id := value], world))
  }

  function Exec<W>(m: Machine<W>, nodes: seq<Node>, prev: nat, ids: seq<nat>, s: State<W>): Outcome<W> {
    if ids == [] then Ran(s)
    else
      match Exec(m, nodes, prev, ids[..|ids| - 1], s)
      case Failed(c, s') => Failed(c, s')
      case Ran(s') => ExecOne(m, nodes, prev, ids[|ids| - 1], s')
  }

  /** `trail`: the blocks of the run in order, the last one is next to run or was the last to run. */
  datatype Run<W> = At(trail: seq<nat>, state: State<W>)
                  | Returned(trail: seq<nat>, state: State<W>)
                  | Stopped(trail: seq<nat>, at: nat, state: State<W>)

  function Prev(trail: seq<nat>): nat {
    if |trail| > 1 then trail[|trail| - 2] else 0
  }

  function NextBlock<W>(m: Machine<W>, g: Graph, trail: seq<nat>, s: State<W>): Run<W>
    requires trail != []
  {
    var b := trail[|trail| - 1];
    match m.next(b, s.world)
    case None => Returned(trail, s)
    case Some(j) => if b < |g| && j < |g[b]| then At(trail + [g[b][j]], s) else Returned(trail, s)
  }

  /** One more block, if the run is not over. */
  function RunBlock<W>(m: Machine<W>, g: Graph, p: Program, r: Run<W>): (r': Run<W>)
    requires r.trail != []
    ensures r'.trail != []
  {
    match r
    case At(trail, s) =>
      (match Exec(m, p.nodes, Prev(trail), Block(p.blocks, trail[|trail| - 1]), s)
       case Failed(c, s') => Stopped(trail, c, s')
       case Ran(s') => NextBlock(m, g, trail, s'))
    case _ => r
  }

  /** The run after `n` blocks. */
  function RunFor<W>(m: Machine<W>, g: Graph, entry: nat, p: Program, s: State<W>, n: nat): (r: Run<W>)
    ensures r.trail != []
  {
    if n == 0 then At([entry], s) else RunBlock(m, g, p, RunFor(m, g, entry, p, s, n - 1))
  }

  lemma {:induction false} RunIsPath<W>(m: Machine<W>, g: Graph, entry: nat, p: Program, s: State<W>, n: nat)
    requires ValidGraph(g) && entry < |g| && RunFor(m, g, entry, p, s, n).At?
    ensures var trail := RunFor(m, g, entry, p, s, n).trail;
            IsPath(g, trail) && trail[0] == entry
  {
    if n > 0 {
      RunIsPath(m, g, entry, p, s, n - 1);
      var front := RunFor(m, g, entry, p, s, n - 1).trail;
      var trail := RunFor(m, g, entry, p, s, n).trail;
      assert trail[..|front|] == front;
    }
  }

  /** Definitions stand above the instructions that read them; phis read on the way into their block. */
  ghost predicate Ssa(g: Graph, entry: nat, p: Program, home: seq<nat>) {
    forall a: nat :: In(p.blocks, home, a) && a < |p.nodes| && !p.nodes[a].op.Phi? ==>
        OperandsAbove(g, entry, p, home, a)
  }

  ghost predicate OperandsAbove(g: Graph, entry: nat, p: Program, home: seq<nat>, a: nat)
    requires a < |p.nodes|
  {
    forall k :: k in Kills(p.nodes, a) ==> Above(g, entry, p.blocks, home, k, a)
  }

  /** What is known of `a` once it has run and its inputs have not run since: a constant has its value, a
      check passes, a pure instruction has the value its inputs give. */
  ghost predicate Settled(nodes: seq<Node>, a: nat, env: map<nat, int>)
    requires a < |nodes|
  {
    && (nodes[a].op.Const? ==> Val(nodes, env, a) == Wrap(nodes[a].ty, nodes[a].op.value))
    && (IsCheck(nodes[a]) ==> Passes(nodes, nodes[a], env))
    && (IsPure(nodes[a]) ==> Result(nodes, nodes[a], env) == Some(Val(nodes, env, a)))
  }

  ghost predicate SettledIfFresh(nodes: seq<Node>, ids: seq<nat>, a: nat, env: map<nat, int>) {
    a < |nodes| && a !in Kills(nodes, a) && Fresh(ids, a, Kills(nodes, a)) ==> Settled(nodes, a, env)
  }

  lemma SettledStays(nodes: seq<Node>, a: nat, env: map<nat, int>, id: nat, value: int)
    requires a < |nodes| && Settled(nodes, a, env) && id != a && id !in Kills(nodes, a) && Writes(nodes, id)
    ensures Settled(nodes, a, env[id := value])
  {
    if IsCheck(nodes[a]) || IsPure(nodes[a]) {
      assert nodes[a].inputs[0] in nodes[a].inputs;
      assert nodes[a].inputs[|nodes[a].inputs| - 1] in nodes[a].inputs;
    }
  }

  lemma OneKeepsSettled<W>(m: Machine<W>, nodes: seq<Node>, prev: nat, ids: seq<nat>, id: nat, s: State<W>, a: nat)
    requires ExecOne(m, nodes, prev, id, s).Ran? && SettledIfFresh(nodes, ids, a, s.env)
    ensures SettledIfFresh(nodes, ids + [id], a, ExecOne(m, nodes, prev, id, s).state.env)
  {
    if a < |nodes| {
      FreshAppend(ids, id, a, Kills(nodes, a));
      var env' := ExecOne(m, nodes, prev, id, s).state.env;
      if a !in Kills(nodes, a) && Fresh(ids + [id], a, Kills(nodes, a)) {
        if id == a {
          if IsCheck(nodes[a]) || IsPure(nodes[a]) {
            assert nodes[a].inputs[0] in nodes[a].inputs;
            assert nodes[a].inputs[|nodes[a].inputs| - 1] in nodes[a].inputs;
          }
        } else if Writes(nodes, id) {
          SettledStays(nodes, a, s.env, id, env'[id]);
        }
      }
    }
  }

  lemma {:induction false} ExecKeepsSettled<W>(m: Machine<W>, nodes: seq<Node>, prev: nat, before: seq<nat>,
                                               ids: seq<nat>, s: State<W>, a: nat)
    requires Exec(m, nodes, prev, ids, s).Ran? && SettledIfFresh(nodes, before, a, s.env)
    ensures SettledIfFresh(nodes, before + ids, a, Exec(m, nodes, prev, ids, s).state.env)
  {
    if ids == [] {
      assert before + ids == before;
    } else {
      var front, last := ids[..|ids| - 1], ids[|ids| - 1];
      ExecKeepsSettled(m, nodes, prev, before, front, s, a);
      assert before + ids == before + front + [last];
      OneKeepsSettled(m, nodes, prev, before + front, last, Exec(m, nodes, prev, front, s).state, a);
    }
  }

  lemma BlockKeepsSettled<W>(m: Machine<W>, g: Graph, p: Program, r: Run<W>, a: nat)
    requires r.At? && r.trail != [] && RunBlock(m, g, p, r).At?
    requires SettledIfFresh(p.nodes, Flat(p.blocks, r.trail[..|r.trail| - 1]), a, r.state.env)
    ensures var r' := RunBlock(m, g, p, r);
            SettledIfFresh(p.nodes, Flat(p.blocks, r'.trail[..|r'.trail| - 1]), a, r'.state.env)
  {
    var trail := r.trail;
    assert RunBlock(m, g, p, r).trail[..|trail|] == trail;
    ExecKeepsSettled(m, p.nodes, Prev(trail), Flat(p.blocks, trail[..|trail| - 1]),
                     Block(p.blocks, trail[|trail| - 1]), r.state, a);
  }

  lemma {:induction false} RunKeepsSettled<W>(m: Machine<W>, g: Graph, entry: nat, p: Program, s: State<W>, n: nat,
                                              a: nat)
    requires RunFor(m, g, entry, p, s, n).At?
    ensures var r := RunFor(m, g, entry, p, s, n);
            SettledIfFresh(p.nodes, Flat(p.blocks, r.trail[..|r.trail| - 1]), a, r.state.env)
  {
    if n > 0 {
      RunKeepsSettled(m, g, entry, p, s, n - 1, a);
      BlockKeepsSettled(m, g, p, RunFor(m, g, entry, p, s, n - 1), a);
    }
  }

  /** Everything that stands above the place where a run is has its value settled: equations between a
      definition and its inputs hold at each use, also in loops. */
  lemma AboveIsSettled<W>(m: Machine<W>, g: Graph, entry: nat, p: Program, home: seq<nat>, s: State<W>, n: nat,
                          i: nat, a: nat)
    requires ValidGraph(g) && entry < |g| && Placed(p.blocks, home) && Ssa(g, entry, p, home)
    requires RunFor(m, g, entry, p, s, n).At?
    requires var trail := RunFor(m, g, entry, p, s, n).trail;
             var ids := Block(p.blocks, trail[|trail| - 1]);
             && i < |ids| && Above(g, entry, p.blocks, home, a, ids[i])
             && Exec(m, p.nodes, Prev(trail), ids[..i], RunFor(m, g, entry, p, s, n).state).Ran?
    requires a < |p.nodes| && !p.nodes[a].op.Phi?
    ensures var r := RunFor(m, g, entry, p, s, n);
            var ids := Block(p.blocks, r.trail[|r.trail| - 1]);
            Settled(p.nodes, a, Exec(m, p.nodes, Prev(r.trail), ids[..i], r.state).state.env)
  {
    var r := RunFor(m, g, entry, p, s, n);
    var ids := Block(p.blocks, r.trail[|r.trail| - 1]);
    RunIsPath(m, g, entry, p, s, n);
    FreshAt(g, entry, p.blocks, home, r.trail, i, a, Kills(p.nodes, a));
    NotItsOwnInput(g, entry, p, home, a);
    RunKeepsSettled(m, g, entry, p, s, n, a);
    ExecKeepsSettled(m, p.nodes, Prev(r.trail), Flat(p.blocks, r.trail[..|r.trail| - 1]), ids[..i], r.state, a);
  }

  lemma NotItsOwnInput(g: Graph, entry: nat, p: Program, home: seq<nat>, a: nat)
    requires Placed(p.blocks, home) && Ssa(g, entry, p, home) && In(p.blocks, home, a) && a < |p.nodes|
    requires !p.nodes[a].op.Phi?
    ensures a !in Kills(p.nodes, a)
  {
    if a in Kills(p.nodes, a) {
      assert Above(g, entry, p.blocks, home, a, a);
      PrecedesMembers(p.blocks[home[a]], a, a);
    }
  }

  // ----- comparing two programs -----

  ghost predicate AlikeAt<W(!new)>(m: Machine<W>, g: Graph, entry: nat, p: Program, p': Program, s: State<W>, n: nat) {
    var r := RunFor(m, g, entry, p, s, n);
    RunBlock(m, g, p', r) == RunBlock(m, g, p, r)
  }

  lemma {:induction false} SameRuns<W(!new)>(m: Machine<W>, g: Graph, entry: nat, p: Program, p': Program, s: State<W>,
                                             n: nat)
    requires forall k: nat :: AlikeAt(m, g, entry, p, p', s, k)
    ensures RunFor(m, g, entry, p', s, n) == RunFor(m, g, entry, p, s, n)
  {
    if n > 0 {
      SameRuns(m, g, entry, p, p', s, n - 1);
      assert AlikeAt(m, g, entry, p, p', s, n - 1);
    }
  }
}
