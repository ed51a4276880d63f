/** Programs the merging of shifts changes: the sum is read too early, or is out of range. */
module MergeProgram {
  import opened Wrappers
  import opened Arithmetic
  import opened Graphs
  import opened Occurrences
  import opened Code
  import opened Runs
  import opened Rewriting
  import opened Equivalence
  import opened PeepHoles
  import opened PeepHoleProofs
  import opened PeepHolePass

  /** 0 comes from outside, 2 shifts it by 1, 4 shifts the result by 3, and 5 shows that to the world. */
  function Nodes(a: int, b: int): seq<Node> {
    [Node(Other, I8, []), Node(Const(a), I8, []), Node(Bin(Shr), I8, [0, 1]), Node(Const(b), I8, []),
     Node(Bin(Shr), I8, [2, 3]), Node(Other, I8, [4])]
  }

  function Before(a: int, b: int, list: seq<nat>): Listing {
    Listing(Program(Nodes(a, b), [list]), [0, 0, 0, 0, 0, 0])
  }

  function After(a: int, b: int, list: seq<nat>): Listing {
    Listing(Program(Nodes(a, b)[4 := Node(Bin(Shr), I8, [0, 6])][2 := Node(Bin(Shr), I8, [])]
      + [Node(Bin(Add), I8, [1, 3])],
                    [list]),
            [0, 0, 0, 0, 0, 0, 0])
  }

  /** The second amount is defined between the shifts, or before both. */
  function Late(): seq<nat> { [0, 1, 2, 3, 4, 5] }

  function Early(): seq<nat> { [0, 1, 3, 2, 4, 5] }

  function OneBlock(): Graph { [[]] }

  function Shower(): Machine<int> {
    Machine((id, prev, vals, w) => (8, if |vals| == 1 then vals[0] else w), (b, w) => None)
  }

  // ----- the programs -----

  lemma PlacedAsGiven(list: seq<nat>, home: seq<nat>)
    requires NoDuplicates(list) && forall id :: id in list ==> id < |home| && home[id] == 0
    ensures Placed([list], home)
  {
  }

  lemma InOrder(list: seq<nat>)
    requires list == Late() || list == Early()
    ensures NoDuplicates(list) && forall id: nat :: id in list <==> id < 6
  {
    DistinctPrefix(list, 6);
    assert list[..6] == list;
    assert list[0] == 0 && list[1] == 1 && list[4] == 4 && list[5] == 5 && {list[2], list[3]} == {2, 3};
  }

  lemma FirstOf(list: seq<nat>)
    requires list == Late() || list == Early()
    ensures Precedes(list, 0, 2) && Precedes(list, 1, 2) && Precedes(list, 2, 4) && Precedes(list, 3, 4)
    ensures Precedes(list, 4, 5) && (Precedes(list, 3, 2) <==> list == Early())
  {
    InOrder(list);
    var j := if list == Late() then 2 else 3;
    assert list[j] == 2 && list[..j][0] == 0 && list[..j][1] == 1 && list[..4][2] == list[2] && list[..4][3] == list[3];
    assert list[..5][4] == 4;
    PrecedesAt(list, 0, j);
    PrecedesAt(list, 1, j);
    PrecedesAt(list, 3, j);
    PrecedesAt(list, 2, 4);
    PrecedesAt(list, 3, 4);
    PrecedesAt(list, 4, 5);
    assert list == Early() ==> list[..j][2] == 3;
    assert list == Late() ==> list[..j] == [0, 1];
  }

  lemma BeforeIsSsa(a: int, b: int, list: seq<nat>)
    requires list == Late() || list == Early()
    ensures var l := Before(a, b, list);
            Ssa(OneBlock(), 0, l.p, l.home) && (Above(OneBlock(), 0, l.p.blocks, l.home, 3, 2) <==> list == Early())
  {
    var l := Before(a, b, list);
    InOrder(list);
    FirstOf(list);
    forall u: nat | u < 6 ensures OperandsAbove(OneBlock(), 0, l.p, l.home, u) {
      forall k | k in Kills(l.p.nodes, u) ensures Above(OneBlock(), 0, l.p.blocks, l.home, k, u) {
        assert (u == 2 && (k == 0 || k == 1)) || (u == 4 && (k == 2 || k == 3)) || (u == 5 && k == 4);
      }
    }
  }

  lemma NodesAreTyped(a: int, b: int)
    requires 0 < a < 7 && 0 < b < 7
    ensures WellTyped(Nodes(a, b)) && EntriesListed(Nodes(a, b)) && Closed(Nodes(a, b))
  {
    var nodes := Nodes(a, b);
    forall u, v: nat | 0 <= u < 6 && ReadsValue(nodes[u], v) ensures v < 6 {
    }
    forall u | 0 <= u < 6 ensures Typed(nodes, nodes[u]) {
    }
  }

  lemma BeforeIsGood(a: int, b: int, list: seq<nat>)
    requires (list == Late() || list == Early()) && 0 < a < 7 && 0 < b < 7
    ensures var l := Before(a, b, list); Good(OneBlock(), 0, l) && WellTyped(l.p.nodes) && EntriesListed(l.p.nodes)
  {
    NodesAreTyped(a, b);
    InOrder(list);
    BeforeIsSsa(a, b, list);
    PlacedAsGiven(list, Before(a, b, list).home);
    assert EntryPath(OneBlock(), 0, [0], 0);
  }

  lemma BeforeMayMerge(a: int, b: int, list: seq<nat>)
    requires (list == Late() || list == Early()) && 0 < a < 7 && 0 < b < 7
    ensures var l := Before(a, b, list);
            && MergeShape(l.p.nodes, 4) && OnlyReader(l.p.nodes, 4) && TwoShifts(l, 4, 2)
            && (AmountAbove(OneBlock(), 0, l, 4, 2) <==> list == Early())
            && (SumInRange(l.p.nodes, 4, 2) <==> a + b < 7)
  {
    var l := Before(a, b, list);
    InOrder(list);
    BeforeIsSsa(a, b, list);
    forall u: nat | u < 6 && 2 in l.p.nodes[u].inputs ensures u == 4 {
    }
  }

  function Put(list: seq<nat>): seq<nat> {
    if list == Late() then [0, 1, 6, 3, 4, 5] else [0, 1, 3, 6, 4, 5]
  }

  lemma IsMerged(a: int, b: int, list: seq<nat>)
    requires (list == Late() || list == Early()) && 0 < a < 7 && 0 < b < 7
    ensures Merged(Before(a, b, list), After(a, b, Put(list)), 4)
  {
    var l, l' := Before(a, b, list), After(a, b, Put(list));
    if list == Late() {
      FoldSteps.PutInPlace([0, 1], 2, [3, 4, 5], 6);
      assert list == [0, 1] + [2] + [3, 4, 5] && Put(list) == [0, 1] + [6] + [3, 4, 5];
    } else {
      FoldSteps.PutInPlace([0, 1, 3], 2, [4, 5], 6);
      assert list == [0, 1, 3] + [2] + [4, 5] && Put(list) == [0, 1, 3] + [6] + [4, 5];
    }
    assert l'.p.blocks == l.p.blocks[0 := Put(list)];
  }

  lemma BothShifts(a: int, b: int, list: seq<nat>)
    requires list == Late() || list == Early()
    ensures Bins(Nodes(a, b), list) == [2, 4]
  {
    var nodes := Nodes(a, b);
    assert list[..2] == [0, 1] && [0, 1][..1] == [0] && [0][..0] == [];
    assert Bins(nodes, [0]) == [];
    assert Bins(nodes, list[..2]) == [];
    assert list[..3][..2] == list[..2] && list[..4][..3] == list[..3] && list[..5][..4] == list[..4];
    assert Bins(nodes, list[..3]) == if list == Late() then [2] else [];
    assert Bins(nodes, list[..4]) == [2];
    assert Bins(nodes, list[..5]) == [2, 4];
  }

  lemma TwoSteps(a: int, b: int, list: seq<nat>)
    requires (list == Late() || list == Early()) && 0 < a < 7 && 0 < b < 7
    ensures var l := Before(a, b, list); FoldStep(l, l, l, 2) && FoldStep(l, l, After(a, b, Put(list)), 4)
  {
    BeforeMayMerge(a, b, list);
    IsMerged(a, b, list);
    var nodes := Nodes(a, b);
    assert 2 in nodes[4].inputs && 4 in nodes[5].inputs;
  }

  lemma TraceOf(l: Listing, l': Listing)
    requires FoldStep(l, l, l, 2) && FoldStep(l, l, l', 4)
    ensures FoldTrace([l, l, l'], [l, l], [2, 4])
  {
  }

  /** The pass makes `After` of it. */
  lemma PassGives(a: int, b: int, list: seq<nat>)
    requires (list == Late() || list == Early()) && 0 < a < 7 && 0 < b < 7
    ensures var l, l' := Before(a, b, list), After(a, b, Put(list));
            && FoldTrace([l, l, l'], [l, l], [2, 4]) && Bins(l.p.nodes, Flat(l.p.blocks, [0])) == [2, 4]
  {
    var l, l' := Before(a, b, list), After(a, b, Put(list));
    TwoSteps(a, b, list);
    TraceOf(l, l');
    BothShifts(a, b, list);
    FlatAppend(l.p.blocks, [], 0);
    assert [] + [0] == [0];
    assert Flat(l.p.blocks, [0]) == list;
  }

  // ----- the runs -----

  /** After the instructions of `ids` the values are `env` and the world is `w`. */
  ghost predicate Reaches(nodes: seq<Node>, ids: seq<nat>, env: map<nat, int>, w: int) {
    Exec(Shower(), nodes, 0, ids, State(map[], 0)) == Ran(State(env, w))
  }

  lemma OneMore(nodes: seq<Node>, ids: seq<nat>, env: map<nat, int>, w: int, id: nat)
    requires Reaches(nodes, ids, env, w)
    ensures Exec(Shower(), nodes, 0, ids + [id], State(map[], 0)) == ExecOne(Shower(), nodes, 0, id, State(env, w))
  {
    assert (ids + [id])[..|ids|] == ids;
  }

  lemma ConstRuns(nodes: seq<Node>, ids: seq<nat>, env: map<nat, int>, w: int, id: nat)
    requires Reaches(nodes, ids, env, w) && IsConst(nodes, id)
    ensures Reaches(nodes, ids + [id], env[id := nodes[id].op.value], w)
  {
    OneMore(nodes, ids, env, w, id);
  }

  lemma BinRuns(nodes: seq<Node>, ids: seq<nat>, env: map<nat, int>, w: int, id: nat, v: int)
    requires Reaches(nodes, ids, env, w) && id < |nodes| && IsPure(nodes[id])
             && Result(nodes, nodes[id], env) == Some(v)
    ensures Reaches(nodes, ids + [id], env[id := v], w)
  {
    OneMore(nodes, ids, env, w, id);
  }

  /** The instruction that brings the first value in, and the one that shows the last one. */
  lemma OtherRuns(nodes: seq<Node>, ids: seq<nat>, env: map<nat, int>, w: int, id: nat)
    requires Reaches(nodes, ids, env, w) && id < |nodes| && nodes[id].op.Other? && |nodes[id].inputs| <= 1
    ensures Reaches(nodes, ids + [id], env[id := 8],
                    if nodes[id].inputs == [] then w else Val(nodes, env, nodes[id].inputs[0]))
  {
    OneMore(nodes, ids, env, w, id);
    if nodes[id].inputs != [] {
      var v := nodes[id].inputs[0];
      assert nodes[id].inputs == [v] && [v][..0] == [] && Vals(nodes, env, []) == [];
      assert Vals(nodes, env, [v]) == [Val(nodes, env, v)];
    }
  }

  lemma Shift(nodes: seq<Node>, env: map<nat, int>, x: nat, v: int, n: nat)
    requires x < |nodes| && nodes[x].op == Bin(Shr) && |nodes[x].inputs| == 2 && nodes[x].ty == I8 && n < 7
    requires Val(nodes, env, nodes[x].inputs[0]) == v && Val(nodes, env, nodes[x].inputs[1]) == n && 0 <= v < 16
    ensures Result(nodes, nodes[x], env) == Some(ShiftRight(v, n)) && 0 <= ShiftRight(v, n) <= v
  {
    ShiftShrinks(v, n);
  }

  lemma {:induction false} ShiftShrinks(v: int, n: nat)
    requires 0 <= v
    ensures 0 <= ShiftRight(v, n) <= v
    decreases n
  {
    if n > 0 {
      ShiftShrinks(v / 2, n - 1);
    }
  }

  lemma BlockRuns(p: Program, env: map<nat, int>, w: int)
    requires |p.blocks| == 1 && Reaches(p.nodes, p.blocks[0], env, w)
    ensures Observe(RunFor(Shower(), OneBlock(), 0, p, State(map[], 0), 1)) == Ended([0], w)
  {
    assert RunFor(Shower(), OneBlock(), 0, p, State(map[], 0), 0) == At([0], State(map[], 0));
  }

  /** Up to the second shift, whatever the order of the amounts. */
  lemma FirstShift(a: nat, b: nat, list: seq<nat>) returns (env: map<nat, int>)
    requires (list == Late() || list == Early()) && 0 < a < 7 && 0 < b < 7
    ensures Reaches(Nodes(a, b), list[..4], env, 0)
    ensures env == map[0 := 8, 1 := a, 2 := ShiftRight(8, a), 3 := b] && 0 <= ShiftRight(8, a) <= 8
  {
    var nodes := Nodes(a, b);
    OtherRuns(nodes, [], map[], 0, 0);
    ConstRuns(nodes, [] + [0], map[][0 := 8], 0, 1);
    env := map[0 := 8, 1 := a];
    assert Reaches(nodes, [0, 1], env, 0);
    if list == Late() {
      Shift(nodes, env, 2, 8, a);
      BinRuns(nodes, [0, 1], env, 0, 2, ShiftRight(8, a));
      ConstRuns(nodes, [0, 1] + [2], env[2 := ShiftRight(8, a)], 0, 3);
      assert list[..4] == [0, 1] + [2] + [3];
    } else {
      ConstRuns(nodes, [0, 1], env, 0, 3);
      Shift(nodes, env[3 := b], 2, 8, a);
      BinRuns(nodes, [0, 1] + [3], env[3 := b], 0, 2, ShiftRight(8, a));
      assert list[..4] == [0, 1] + [3] + [2];
    }
    env := map[0 := 8, 1 := a, 2 := ShiftRight(8, a), 3 := b];
  }

  /** Before the pass the value is shifted by both amounts. */
  lemma RunBefore(a: nat, b: nat, list: seq<nat>)
    requires (list == Late() || list == Early()) && 0 < a < 7 && 0 < b < 7
    ensures Observe(RunFor(Shower(), OneBlock(), 0, Before(a, b, list).p, State(map[], 0), 1))
         == Ended([0], ShiftRight(ShiftRight(8, a), b))
  {
    var nodes := Nodes(a, b);
    var env := FirstShift(a, b, list);
    var v := ShiftRight(8, a);
    Shift(nodes, env, 4, v, b);
    BinRuns(nodes, list[..4], env, 0, 4, ShiftRight(v, b));
    OtherRuns(nodes, list[..4] + [4], env[4 := ShiftRight(v, b)], 0, 5);
    assert list[..4] + [4] + [5] == list;
    BlockRuns(Before(a, b, list).p, env[4 := ShiftRight(v, b)][5 := 8], ShiftRight(v, b));
  }

  lemma FirstLateSum(a: nat, b: nat)
    requires 0 < a < 7 && 0 < b < 7
    ensures Reaches(After(a, b, Put(Late())).p.nodes, [0, 1, 6, 3], map[0 := 8, 1 := a, 6 := a, 3 := b], 0)
  {
    var nodes := After(a, b, Put(Late())).p.nodes;
    OtherRuns(nodes, [], map[], 0, 0);
    ConstRuns(nodes, [] + [0], map[][0 := 8], 0, 1);
    var env := map[0 := 8, 1 := a];
    assert Reaches(nodes, [0, 1], env, 0);
    BinRuns(nodes, [0, 1], env, 0, 6, a);
    ConstRuns(nodes, [0, 1] + [6], env[6 := a], 0, 3);
    assert [0, 1] + [6] + [3] == [0, 1, 6, 3] && env[6 := a][3 := b] == map[0 := 8, 1 := a, 6 := a, 3 := b];
  }

  /** Where the sum reads the second amount before it is defined, the value is shifted by the first only. */
  lemma RunAfterLate(a: nat, b: nat)
    requires 0 < a < 7 && 0 < b < 7
    ensures Observe(RunFor(Shower(), OneBlock(), 0, After(a, b, Put(Late())).p, State(map[], 0), 1))
         == Ended([0], ShiftRight(8, a))
  {
    var p := After(a, b, Put(Late())).p;
    var nodes, v := p.nodes, ShiftRight(8, a);
    var env := map[0 := 8, 1 := a, 6 := a, 3 := b];
    FirstLateSum(a, b);
    Shift(nodes, env, 4, 8, a);
    BinRuns(nodes, [0, 1, 6, 3], env, 0, 4, v);
    OtherRuns(nodes, [0, 1, 6, 3] + [4], env[4 := v], 0, 5);
    assert [0, 1, 6, 3] + [4] + [5] == Put(Late());
    BlockRuns(p, env[4 := v][5 := 8], v);
  }

  /** Where the sum is out of range, the shift fails. */
  lemma RunAfterEarly(a: nat, b: nat)
    requires 0 < a < 7 && 0 < b < 7 && a + b >= 7
    ensures Observe(RunFor(Shower(), OneBlock(), 0, After(a, b, Put(Early())).p, State(map[], 0), 1))
         == Broken([0], 4, 0)
  {
    var p := After(a, b, Put(Early())).p;
    var nodes := p.nodes;
    OtherRuns(nodes, [], map[], 0, 0);
    ConstRuns(nodes, [] + [0], map[][0 := 8], 0, 1);
    ConstRuns(nodes, [] + [0] + [1], map[0 := 8, 1 := a], 0, 3);
    var env := map[0 := 8, 1 := a, 3 := b];
    var ids := [] + [0] + [1] + [3];
    BinRuns(nodes, ids, env, 0, 6, a + b);
    OneMore(nodes, ids + [6], env[6 := a + b], 0, 4);
    var failed := Failed(4, State(env[6 := a + b], 0));
    assert Exec(Shower(), nodes, 0, ids + [6] + [4], State(map[], 0)) == failed;
    assert (ids + [6] + [4] + [5])[..5] == ids + [6] + [4] && Put(Early()) == ids + [6] + [4] + [5];
    assert RunFor(Shower(), OneBlock(), 0, p, State(map[], 0), 0) == At([0], State(map[], 0));
  }

  /** The pass takes a program to another by merging two shifts, and is asked nothing more of than of others. */
  ghost predicate MergedByPass(l: Listing, l': Listing) {
    && Good(OneBlock(), 0, l) && WellTyped(l.p.nodes) && EntriesListed(l.p.nodes)
    && FoldTrace([l, l, l'], [l, l], [2, 4]) && Bins(l.p.nodes, Flat(l.p.blocks, [0])) == [2, 4]
  }

  lemma IsMergedByPass(a: int, b: int, list: seq<nat>)
    requires (list == Late() || list == Early()) && 0 < a < 7 && 0 < b < 7
    ensures MergedByPass(Before(a, b, list), After(a, b, Put(list)))
  {
    BeforeIsGood(a, b, list);
    PassGives(a, b, list);
  }

  /** The second amount is defined too late: a run that showed 1 shows 4. */
  lemma LateAmountChangesRun()
    ensures var p, p' := Before(1, 2, Late()).p, After(1, 2, Put(Late())).p;
            && Observe(RunFor(Shower(), OneBlock(), 0, p, State(map[], 0), 1)) == Ended([0], 1)
            && Observe(RunFor(Shower(), OneBlock(), 0, p', State(map[], 0), 1)) == Ended([0], 4)
    ensures MergedByPass(Before(1, 2, Late()), After(1, 2, Put(Late())))
  {
    IsMergedByPass(1, 2, Late());
    RunBefore(1, 2, Late());
    RunAfterLate(1, 2);
    assert ShiftRight(8, 1) == ShiftRight(4, 0) && ShiftRight(4, 2) == ShiftRight(2, 1) == ShiftRight(1, 0);
  }

  /** The sum is out of range: a run that showed 0 fails. */
  lemma LargeSumChangesRun()
    ensures var p, p' := Before(4, 4, Early()).p, After(4, 4, Put(Early())).p;
            && Observe(RunFor(Shower(), OneBlock(), 0, p, State(map[], 0), 1)) == Ended([0], 0)
            && Observe(RunFor(Shower(), OneBlock(), 0, p', State(map[], 0), 1)) == Broken([0], 4, 0)
    ensures MergedByPass(Before(4, 4, Early()), After(4, 4, Put(Early())))
  {
    IsMergedByPass(4, 4, Early());
    RunBefore(4, 4, Early());
    RunAfterEarly(4, 4);
    assert ShiftRight(8, 4) == ShiftRight(4, 3) == ShiftRight(2, 2) == ShiftRight(1, 1) == ShiftRight(0, 0);
    assert ShiftRight(0, 4) == ShiftRight(0, 3) == ShiftRight(0, 2) == ShiftRight(0, 1) == ShiftRight(0, 0);
  }
}
