/** The rules of the peephole pass keep every run. */
module PeepHoleProofs {
  import opened Wrappers
  import opened Graphs
  import opened Arithmetic
  import opened Occurrences
  import opened Code
  import opened Runs
  import opened Rewriting
  import opened DefUse
  import opened Equivalence
  import opened FoldSteps
  import opened PeepHoles

  /** No phi takes the value of `x` from one of its entries. */
  ghost predicate NoPhiReads(nodes: seq<Node>, x: nat) {
    forall u: nat, i: nat :: u < |nodes| && nodes[u].op.Phi? && i < |nodes[u].op.entries| ==>
        nodes[u].op.entries[i].val != x
  }

  ghost function RedirectAll(nodes: seq<Node>, x: nat, y: nat): (r: seq<Node>)
    ensures Redirected(nodes, r, x, y)
  {
    seq(|nodes|, u requires 0 <= u < |nodes| => RedirectNode(nodes[u], x, y))
  }

  // ----- removing -----

  lemma RuleGivesSame(g: Graph, entry: nat, l: Listing, x: nat, y: nat)
    requires Good(g, entry, l) && WellTyped(l.p.nodes) && Rule(l.p.nodes, x) == Some(y) && In(l.p.blocks, l.home, x)
    ensures IsPure(l.p.nodes[x]) && y in l.p.nodes[x].inputs && y < |l.p.nodes| && SameResult(g, entry, l, x, y)
    ensures l.p.nodes[y].ty == l.p.nodes[x].ty
  {
    var nodes, n := l.p.nodes, l.p.nodes[x];
    assert Typed(nodes, n) && Typed(nodes, nodes[n.inputs[0]]) && Typed(nodes, nodes[n.inputs[1]]);
    forall env | AboveSettled(g, entry, l.p, l.home, x, env) ensures Result(nodes, n, env) == Some(Val(nodes, env, y)) {
      ConstantIsKnown(g, entry, l, x, n.inputs[1], env);
      var a := Val(nodes, env, n.inputs[0]);
      AddZero(n.ty, a);
      ShiftByZero(n.ty, a);
      OrWithZero(n.ty, a);
      OrWithOnes(n.ty, a);
    }
  }

  /** Where an instruction runs, its constant operands have their values. */
  lemma ConstantIsKnown(g: Graph, entry: nat, l: Listing, u: nat, c: nat, env: map<nat, int>)
    requires Good(g, entry, l) && WellTyped(l.p.nodes) && u < |l.p.nodes| && In(l.p.blocks, l.home, u)
    requires !l.p.nodes[u].op.Phi? && c in l.p.nodes[u].inputs && IsConst(l.p.nodes, c)
    requires AboveSettled(g, entry, l.p, l.home, u, env)
    ensures Val(l.p.nodes, env, c) == l.p.nodes[c].op.value
  {
    assert c in Kills(l.p.nodes, u);
    assert Settled(l.p.nodes, c, env);
    assert Typed(l.p.nodes, l.p.nodes[c]);
  }

  /** A list of blocks with `x` taken out of its own one. */
  lemma KeptAtHome(blocks: seq<seq<nat>>, home: seq<nat>, x: nat)
    requires Placed(blocks, home) && x < |home| && home[x] < |blocks|
    ensures KeepBlocks(blocks, {x}) == blocks[home[x] := Keep(blocks[home[x]], {x})]
  {
    forall b | 0 <= b < |blocks| && b != home[x] ensures Keep(blocks[b], {x}) == blocks[b] {
      KeepAbsent(blocks[b], x);
    }
  }

  /** Redirecting the users of `x` changes nothing above `x`. */
  lemma RedirectedSettled(g: Graph, entry: nat, l: Listing, l1: Listing, x: nat, y: nat, env: map<nat, int>)
    requires Good(g, entry, l) && x < |l.p.nodes| && In(l.p.blocks, l.home, x) && y < |l.p.nodes|
    requires Writes(l.p.nodes, x)
    requires Redirected(l.p.nodes, l1.p.nodes, x, y) && l1.p.blocks == l.p.blocks && l1.home == l.home
    requires AboveSettled(g, entry, l1.p, l1.home, x, env)
    ensures AboveSettled(g, entry, l.p, l.home, x, env)
  {
    RedirectedShape(l.p.nodes, l1.p.nodes, x, y);
    forall a: nat | a < |l.p.nodes| && !l.p.nodes[a].op.Phi? && Above(g, entry, l.p.blocks, l.home, a, x)
      ensures Settled(l.p.nodes, a, env)
    {
      if x in l.p.nodes[a].inputs {
        assert x in Kills(l.p.nodes, a);
        AboveTransitive(g, entry, l, x, a, x);
        PrecedesMembers(l.p.blocks[l.home[x]], x, x);
      }
      RedirectNone(l.p.nodes[a].inputs, x, y);
      assert Settled(l1.p.nodes, a, env);
      SameSettled(l.p.nodes, l1.p.nodes, a, env);
    }
  }

  lemma SameSettled(nodes: seq<Node>, nodes': seq<Node>, a: nat, env: map<nat, int>)
    requires SameShape(nodes, nodes') && Closed(nodes) && a < |nodes| && nodes'[a] == nodes[a]
    ensures Settled(nodes', a, env) <==> Settled(nodes, a, env)
  {
    SameValue(nodes, nodes', env, a);
    if IsCheck(nodes[a]) || IsPure(nodes[a]) {
      var i, j := nodes[a].inputs[0], nodes[a].inputs[|nodes[a].inputs| - 1];
      assert ReadsValue(nodes[a], i) && ReadsValue(nodes[a], j);
      SameValue(nodes, nodes', env, i);
      SameValue(nodes, nodes', env, j);
    }
  }

  lemma DeadAfterRedirect(g: Graph, entry: nat, l: Listing, l1: Listing, x: nat, y: nat)
    requires Good(g, entry, l) && x < |l.p.nodes| && In(l.p.blocks, l.home, x) && y != x && y < |l.p.nodes|
    requires SameResult(g, entry, l, x, y) && NoPhiReads(l.p.nodes, x)
    requires Redirected(l.p.nodes, l1.p.nodes, x, y) && l1.p.blocks == l.p.blocks && l1.home == l.home
    ensures Dead(l1.p, l1.home, x) && NeverFails(g, entry, l1.p, l1.home, x)
  {
    NotItsOwnInput(g, entry, l.p, l.home, x);
    assert x !in l.p.nodes[x].inputs;
    RedirectNone(l.p.nodes[x].inputs, x, y);
    forall u: nat | u < |l1.p.nodes| ensures !ReadsValue(l1.p.nodes[u], x) {
      RedirectMembers(l.p.nodes[u].inputs, x, y, x);
    }
    var n := l.p.nodes[x];
    RedirectedShape(l.p.nodes, l1.p.nodes, x, y);
    forall env | AboveSettled(g, entry, l1.p, l1.home, x, env) ensures Result(l1.p.nodes, l1.p.nodes[x], env).Some? {
      RedirectedSettled(g, entry, l, l1, x, y, env);
      assert ReadsValue(n, n.inputs[0]) && ReadsValue(n, n.inputs[1]);
      SameValue(l.p.nodes, l1.p.nodes, env, n.inputs[0]);
      SameValue(l.p.nodes, l1.p.nodes, env, n.inputs[1]);
      assert Result(l.p.nodes, n, env) == Some(Val(l.p.nodes, env, y));
    }
  }

  /** Users of `x` read `y`, `x` goes, its inputs are dropped. */
  lemma RemovedPreserves(g: Graph, entry: nat, l: Listing, l': Listing, x: nat, y: nat) returns (steps: seq<Listing>)
    requires Good(g, entry, l) && Removed(l, l', x, y) && In(l.p.blocks, l.home, x)
    requires y != x && y < |l.p.nodes| && SameResult(g, entry, l, x, y) && NoPhiReads(l.p.nodes, x)
    requires Writes(l.p.nodes, y) ==> Above(g, entry, l.p.blocks, l.home, y, x)
    ensures Chain(g, entry, l, steps, l') && Good(g, entry, l')
  {
    var l1 := l.(p := l.p.(nodes := RedirectAll(l.p.nodes, x, y)));
    RedirectStep(g, entry, l, l1, x, y);
    DeadAfterRedirect(g, entry, l, l1, x, y);
    EraseStep(g, entry, l1, x);
    var l2 := Listing(Without(l1.p, x), l1.home);
    InKept(l1.p.blocks, l1.home, x, x);
    ClearStep(g, entry, l2, x);
    KeptAtHome(l.p.blocks, l.home, x);
    var l3 := Rewired(l2, x, []);
    assert l3.p.nodes == l'.p.nodes;
    assert l3 == l';
    steps := ThreeSteps(g, entry, l, l1, l2, l3);
  }

  lemma OneStep(g: Graph, entry: nat, a: Listing, steps: seq<Listing>, b: Listing, c: Listing)
    requires Chain(g, entry, a, steps, b) && Step(g, entry, b, c)
    ensures Chain(g, entry, a, steps + [b], c)
  {
    assert (steps + [b])[..|steps|] == steps;
  }

  lemma ThreeSteps(g: Graph, entry: nat, a: Listing, b: Listing, c: Listing, d: Listing) returns (steps: seq<Listing>)
    requires Step(g, entry, a, b) && Step(g, entry, b, c) && Step(g, entry, c, d)
    ensures Chain(g, entry, a, steps, d)
  {
    assert Chain(g, entry, a, [], a);
    OneStep(g, entry, a, [], a, b);
    OneStep(g, entry, a, [a], b, c);
    OneStep(g, entry, a, [a] + [b], c, d);
    steps := [a] + [b] + [c];
  }

  /** The rules for zero and ones. */
  lemma RulePreserves(g: Graph, entry: nat, l: Listing, l': Listing, x: nat, y: nat) returns (steps: seq<Listing>)
    requires Good(g, entry, l) && WellTyped(l.p.nodes) && Rule(l.p.nodes, x) == Some(y) && Removed(l, l', x, y)
    requires In(l.p.blocks, l.home, x) && NoPhiReads(l.p.nodes, x)
    ensures Chain(g, entry, l, steps, l') && Good(g, entry, l') && WellTyped(l'.p.nodes)
  {
    RuleGivesSame(g, entry, l, x, y);
    NotItsOwnInput(g, entry, l.p, l.home, x);
    steps := RemovedPreserves(g, entry, l, l', x, y);
    RemovedTyped(l, l', x, y);
  }

  lemma RemovedTyped(l: Listing, l': Listing, x: nat, y: nat)
    requires WellTyped(l.p.nodes) && Removed(l, l', x, y) && y < |l.p.nodes| && l.p.nodes[y].ty == l.p.nodes[x].ty
    ensures WellTyped(l'.p.nodes)
  {
    forall u | 0 <= u < |l'.p.nodes| ensures Typed(l'.p.nodes, l'.p.nodes[u]) {
      assert Typed(l.p.nodes, l.p.nodes[u]);
      RedirectAt(l.p.nodes[u].inputs, x, y);
    }
  }

  // ----- merging shifts -----

  /** `x` shifts the result of `fst` by a constant, `fst` shifts by a constant, nobody else reads `fst`. */
  ghost predicate TwoShifts(l: Listing, x: nat, fst: nat) {
    && IsBin(l.p.nodes, x, Shr) && IsBin(l.p.nodes, fst, Shr) && l.p.nodes[x].inputs[0] == fst
    && IsConst(l.p.nodes, l.p.nodes[x].inputs[1]) && IsConst(l.p.nodes, l.p.nodes[fst].inputs[1])
    && In(l.p.blocks, l.home, x) && In(l.p.blocks, l.home, fst)
    && (forall u: nat :: u < |l.p.nodes| && fst in l.p.nodes[u].inputs ==> u == x)
    && NoPhiReads(l.p.nodes, fst)
  }

  /** The amounts of the shifts and their sum are in range. */
  predicate SumInRange(nodes: seq<Node>, x: nat, fst: nat)
    requires IsBin(nodes, x, Shr) && IsBin(nodes, fst, Shr)
    requires IsConst(nodes, nodes[x].inputs[1]) && IsConst(nodes, nodes[fst].inputs[1])
  {
    var a, b := nodes[fst].inputs[1], nodes[x].inputs[1];
    0 <= nodes[a].op.value && 0 <= nodes[b].op.value && nodes[a].op.value + nodes[b].op.value < Digits(nodes[x].ty)
  }

  /** The second amount is defined before the first shift, in front of which the sum of both is put. */
  ghost predicate AmountAbove(g: Graph, entry: nat, l: Listing, x: nat, fst: nat)
    requires IsBin(l.p.nodes, x, Shr)
  {
    Above(g, entry, l.p.blocks, l.home, l.p.nodes[x].inputs[1], fst)
  }

  ghost function SumOf(l: Listing, x: nat, fst: nat): Node
    requires TwoShifts(l, x, fst)
  {
    Node(Bin(Add), l.p.nodes[l.p.nodes[x].inputs[1]].ty, [l.p.nodes[fst].inputs[1], l.p.nodes[x].inputs[1]])
  }

  /** The sum in the table and in front of the first shift. */
  ghost function WithSum(l: Listing, x: nat, fst: nat): Listing
    requires TwoShifts(l, x, fst)
  {
    var l1 := Extended(l, SumOf(l, x, fst), l.home[fst]);
    l1.(p := l1.p.(blocks := l.p.blocks[l.home[fst] := InsertBefore(l.p.blocks[l.home[fst]], fst, |l.p.nodes|)]))
  }

  lemma SumReads(l: Listing, x: nat, fst: nat, v: nat)
    requires TwoShifts(l, x, fst) && ReadsValue(SumOf(l, x, fst), v)
    ensures v < |l.p.nodes| && l.p.nodes[v].op.Const?
    ensures v == l.p.nodes[fst].inputs[1] || v == l.p.nodes[x].inputs[1]
  {
  }

  /** Both amounts stand above the place of the sum. */
  lemma AmountsAbove(g: Graph, entry: nat, l: Listing, x: nat, fst: nat)
    requires Good(g, entry, l) && TwoShifts(l, x, fst) && AmountAbove(g, entry, l, x, fst)
    ensures var l1 := Extended(l, SumOf(l, x, fst), l.home[fst]);
            forall k :: k in Kills(l1.p.nodes, |l.p.nodes|) ==> Above(g, entry, l1.p.blocks, l1.home, k, fst)
  {
    var l1 := Extended(l, SumOf(l, x, fst), l.home[fst]);
    assert l.p.nodes[fst].inputs[1] in Kills(l.p.nodes, fst);
    forall k | k in Kills(l1.p.nodes, |l.p.nodes|) ensures Above(g, entry, l1.p.blocks, l1.home, k, fst) {
      SumReads(l, x, fst, k);
    }
  }

  lemma AddSum(g: Graph, entry: nat, l: Listing, x: nat, fst: nat)
    requires Good(g, entry, l) && TwoShifts(l, x, fst) && AmountAbove(g, entry, l, x, fst)
    ensures var l1 := Extended(l, SumOf(l, x, fst), l.home[fst]);
            && Step(g, entry, l, l1) && Step(g, entry, l1, WithSum(l, x, fst))
            && In(WithSum(l, x, fst).p.blocks, l1.home, |l.p.nodes|)
            && KeepBlocks(WithSum(l, x, fst).p.blocks, {|l.p.nodes|}) == l.p.blocks
  {
    var n, l1 := |l.p.nodes|, Extended(l, SumOf(l, x, fst), l.home[fst]);
    forall v: nat | ReadsValue(SumOf(l, x, fst), v) ensures v < n {
      SumReads(l, x, fst, v);
    }
    ExtendStep(g, entry, l, SumOf(l, x, fst), l.home[fst]);
    forall u: nat | u < |l1.p.nodes| ensures !ReadsValue(l1.p.nodes[u], n) {
      assert u < n ==> l1.p.nodes[u] == l.p.nodes[u];
    }
    AmountsAbove(g, entry, l, x, fst);
    InsertStep(g, entry, l1, fst, n);
    InsertedPlaced(l1.p.blocks, l1.home, fst, n);
    assert Inserted(l1, fst, n) == WithSum(l, x, fst);
  }

  lemma {:induction false} InsertedPrecedes(list: seq<nat>, z: nat, x: nat)
    requires z in list && x !in list && NoDuplicates(list)
    ensures Precedes(InsertBefore(list, z, x), x, z)
  {
    var front, last := list[..|list| - 1], list[|list| - 1];
    if last == z {
      assert (front + [x, z])[..|front| + 1] == front + [x];
    } else {
      InsertedPrecedes(front, z, x);
      PrecedesAppend(InsertBefore(front, z, x), last, x, z);
    }
  }

  /** The first shift and the sum stand above the second shift. */
  lemma PartsAbove(g: Graph, entry: nat, l: Listing, x: nat, fst: nat)
    requires Good(g, entry, l) && TwoShifts(l, x, fst) && AmountAbove(g, entry, l, x, fst)
    ensures var b := WithSum(l, x, fst);
            && Good(g, entry, b) && Above(g, entry, b.p.blocks, b.home, fst, x)
            && Above(g, entry, b.p.blocks, b.home, |l.p.nodes|, x)
  {
    var b, n := WithSum(l, x, fst), |l.p.nodes|;
    AddSum(g, entry, l, x, fst);
    ShiftsAbove(g, entry, l, x, fst, b);
    SumAbove(g, entry, l, x, fst, b);
    AboveTransitive(g, entry, b, n, fst, x);
  }

  lemma ShiftsAbove(g: Graph, entry: nat, l: Listing, x: nat, fst: nat, b: Listing)
    requires Good(g, entry, l) && TwoShifts(l, x, fst) && b == WithSum(l, x, fst) && Good(g, entry, b)
    requires In(b.p.blocks, b.home, |l.p.nodes|) && KeepBlocks(b.p.blocks, {|l.p.nodes|}) == l.p.blocks
    ensures Above(g, entry, b.p.blocks, b.home, fst, x)
  {
    assert fst in Kills(l.p.nodes, x);
    assert Above(g, entry, l.p.blocks, l.home, fst, x);
    assert Above(g, entry, l.p.blocks, b.home, fst, x);
    AboveKept(g, entry, b.p.blocks, b.home, |l.p.nodes|, fst, x);
  }

  lemma SumAbove(g: Graph, entry: nat, l: Listing, x: nat, fst: nat, b: Listing)
    requires Good(g, entry, l) && TwoShifts(l, x, fst) && b == WithSum(l, x, fst) && Good(g, entry, b)
    requires In(b.p.blocks, b.home, |l.p.nodes|) && KeepBlocks(b.p.blocks, {|l.p.nodes|}) == l.p.blocks
    requires In(b.p.blocks, b.home, fst) && In(l.p.blocks, l.home, fst)
    ensures Above(g, entry, b.p.blocks, b.home, |l.p.nodes|, fst)
  {
    InsertedPrecedes(l.p.blocks[l.home[fst]], fst, |l.p.nodes|);
  }

  lemma MergedValue(g: Graph, entry: nat, l: Listing, x: nat, fst: nat, env: map<nat, int>)
    requires Good(g, entry, l) && TwoShifts(l, x, fst) && WellTyped(l.p.nodes) && SumInRange(l.p.nodes, x, fst)
    requires AmountAbove(g, entry, l, x, fst)
    requires var b := WithSum(l, x, fst); AboveSettled(g, entry, b.p, b.home, x, env)
    ensures var nodes := WithSum(l, x, fst).p.nodes;
            var x0 := nodes[fst].inputs[0];
            Eval(Shr, nodes[x].ty, Val(nodes, env, x0), Val(nodes, env, |l.p.nodes|)) == Result(nodes, nodes[x], env)
  {
    var b, n := WithSum(l, x, fst), |l.p.nodes|;
    var nodes := b.p.nodes;
    PartsAbove(g, entry, l, x, fst);
    assert Settled(nodes, fst, env) && Settled(nodes, n, env);
    assert Typed(l.p.nodes, l.p.nodes[x]) && Typed(l.p.nodes, l.p.nodes[fst]);
    var c1, c2 := nodes[fst].inputs[1], nodes[x].inputs[1];
    assert Typed(l.p.nodes, l.p.nodes[c1]) && Typed(l.p.nodes, l.p.nodes[c2]);
    AmountsKnown(g, entry, l, x, fst, env);
    assert ReadsValue(l.p.nodes[fst], nodes[fst].inputs[0]);
    ShiftsMergeIff(nodes[x].ty, Val(nodes, env, nodes[fst].inputs[0]), nodes[c1].op.value, nodes[c2].op.value);
  }

  /** Where the second shift runs, the amounts have their values. */
  lemma AmountsKnown(g: Graph, entry: nat, l: Listing, x: nat, fst: nat, env: map<nat, int>)
    requires Good(g, entry, l) && TwoShifts(l, x, fst) && WellTyped(l.p.nodes) && AmountAbove(g, entry, l, x, fst)
    requires var b := WithSum(l, x, fst); AboveSettled(g, entry, b.p, b.home, x, env)
    ensures var nodes := WithSum(l, x, fst).p.nodes;
            var c1, c2 := l.p.nodes[fst].inputs[1], l.p.nodes[x].inputs[1];
            && Val(nodes, env, c1) == l.p.nodes[c1].op.value && Val(nodes, env, c2) == l.p.nodes[c2].op.value
  {
    var b, c1, c2 := WithSum(l, x, fst), l.p.nodes[fst].inputs[1], l.p.nodes[x].inputs[1];
    PartsAbove(g, entry, l, x, fst);
    assert c1 in Kills(b.p.nodes, fst) && c2 in Kills(b.p.nodes, x);
    AboveTransitive(g, entry, b, c1, fst, x);
    assert Settled(b.p.nodes, c1, env) && Settled(b.p.nodes, c2, env);
    assert Typed(l.p.nodes, l.p.nodes[c1]) && Typed(l.p.nodes, l.p.nodes[c2]);
  }

  /** What the merged shift reads stands above it. */
  lemma OperandsOfMerged(g: Graph, entry: nat, l: Listing, x: nat, fst: nat)
    requires Good(g, entry, l) && TwoShifts(l, x, fst) && AmountAbove(g, entry, l, x, fst)
    ensures var b, x0 := WithSum(l, x, fst), l.p.nodes[fst].inputs[0];
            && Good(g, entry, b) && x0 < |l.p.nodes|
            && forall k :: k in [x0, |l.p.nodes|] && Writes(b.p.nodes, k) ==> Above(g, entry, b.p.blocks, b.home, k, x)
  {
    var b, x0 := WithSum(l, x, fst), l.p.nodes[fst].inputs[0];
    PartsAbove(g, entry, l, x, fst);
    assert ReadsValue(l.p.nodes[fst], x0);
    if Writes(b.p.nodes, x0) {
      assert x0 in Kills(b.p.nodes, fst);
      AboveTransitive(g, entry, b, x0, fst, x);
    }
  }

  lemma MergeRewrites(g: Graph, entry: nat, l: Listing, x: nat, fst: nat)
    requires Good(g, entry, l) && TwoShifts(l, x, fst) && WellTyped(l.p.nodes) && SumInRange(l.p.nodes, x, fst)
    requires AmountAbove(g, entry, l, x, fst)
    ensures var b := WithSum(l, x, fst);
            Step(g, entry, b, Rewired(b, x, [l.p.nodes[fst].inputs[0], |l.p.nodes|]))
  {
    var b, n, x0 := WithSum(l, x, fst), |l.p.nodes|, l.p.nodes[fst].inputs[0];
    PartsAbove(g, entry, l, x, fst);
    assert ReadsValue(l.p.nodes[fst], x0);
    var c := Rewired(b, x, [x0, n]);
    forall env | AboveSettled(g, entry, b.p, b.home, x, env) ensures SameMeaning(b.p.nodes, c.p.nodes, x, env) {
      MergedValue(g, entry, l, x, fst, env);
      SameValue(b.p.nodes, c.p.nodes, env, x0);
      SameValue(b.p.nodes, c.p.nodes, env, n);
    }
    OperandsOfMerged(g, entry, l, x, fst);
    RewireStep(g, entry, b, x, [x0, n]);
  }

  lemma FstIsDead(g: Graph, entry: nat, l: Listing, x: nat, fst: nat)
    requires Good(g, entry, l) && TwoShifts(l, x, fst)
    ensures var b := WithSum(l, x, fst);
            var c := Rewired(b, x, [l.p.nodes[fst].inputs[0], |l.p.nodes|]);
            Dead(c.p, c.home, fst) && fst != x
  {
    var b, n, x0 := WithSum(l, x, fst), |l.p.nodes|, l.p.nodes[fst].inputs[0];
    var c := Rewired(b, x, [x0, n]);
    NotItsOwnInput(g, entry, l.p, l.home, fst);
    NotItsOwnInput(g, entry, l.p, l.home, x);
    assert x0 != fst;
    forall u: nat | u < |c.p.nodes| ensures !ReadsValue(c.p.nodes[u], fst) {
      if u == n && ReadsValue(c.p.nodes[u], fst) {
        SumReads(l, x, fst, fst);
      }
    }
  }

  lemma FstNeverFails(g: Graph, entry: nat, l: Listing, x: nat, fst: nat)
    requires Good(g, entry, l) && TwoShifts(l, x, fst) && WellTyped(l.p.nodes) && SumInRange(l.p.nodes, x, fst)
    requires var b := WithSum(l, x, fst); Good(g, entry, Rewired(b, x, [l.p.nodes[fst].inputs[0], |l.p.nodes|]))
    requires In(WithSum(l, x, fst).p.blocks, WithSum(l, x, fst).home, fst)
    ensures var b := WithSum(l, x, fst);
            var c := Rewired(b, x, [l.p.nodes[fst].inputs[0], |l.p.nodes|]);
            NeverFails(g, entry, c.p, c.home, fst)
  {
    var c := Rewired(WithSum(l, x, fst), x, [l.p.nodes[fst].inputs[0], |l.p.nodes|]);
    var c1, c2 := l.p.nodes[fst].inputs[1], l.p.nodes[x].inputs[1];
    NotItsOwnInput(g, entry, l.p, l.home, x);
    assert Typed(l.p.nodes, l.p.nodes[c1]) && Typed(l.p.nodes, l.p.nodes[fst]);
    assert Typed(l.p.nodes, l.p.nodes[x]) && Typed(l.p.nodes, l.p.nodes[c2]);
    assert c1 in Kills(c.p.nodes, fst);
    forall env | AboveSettled(g, entry, c.p, c.home, fst, env) ensures Result(c.p.nodes, c.p.nodes[fst], env).Some? {
      assert Settled(c.p.nodes, c1, env);
    }
  }

  /** Two shifts in place of which one shift by the sum stands. */
  lemma MergePreserves(g: Graph, entry: nat, l: Listing, l': Listing, x: nat, fst: nat) returns (steps: seq<Listing>)
    requires Good(g, entry, l) && TwoShifts(l, x, fst) && WellTyped(l.p.nodes) && SumInRange(l.p.nodes, x, fst)
    requires AmountAbove(g, entry, l, x, fst) && Merged(l, l', x)
    ensures Chain(g, entry, l, steps, l') && Good(g, entry, l')
  {
    var l1, l2 := Extended(l, SumOf(l, x, fst), l.home[fst]), WithSum(l, x, fst);
    AddSum(g, entry, l, x, fst);
    MergeRewrites(g, entry, l, x, fst);
    PartsAbove(g, entry, l, x, fst);
    var l3 := Rewired(l2, x, [l.p.nodes[fst].inputs[0], |l.p.nodes|]);
    FstIsDead(g, entry, l, x, fst);
    FstNeverFails(g, entry, l, x, fst);
    EraseStep(g, entry, l3, fst);
    var l4 := Listing(Without(l3.p, fst), l3.home);
    InKept(l3.p.blocks, l3.home, fst, fst);
    ClearStep(g, entry, l4, fst);
    var l5 := Rewired(l4, fst, []);
    MergedIs(l, l', x, fst);
    steps := ThreeSteps(g, entry, l, l1, l2, l3);
    OneStep(g, entry, l, steps, l3, l4);
    OneStep(g, entry, l, steps + [l3], l4, l5);
    steps := steps + [l3] + [l4];
  }

  lemma MergedIs(l: Listing, l': Listing, x: nat, fst: nat)
    requires TwoShifts(l, x, fst) && Merged(l, l', x) && Placed(WithSum(l, x, fst).p.blocks, WithSum(l, x, fst).home)
    requires x < |l.p.nodes| == |l.home|
    ensures var l3 := Rewired(WithSum(l, x, fst), x, [l.p.nodes[fst].inputs[0], |l.p.nodes|]);
            l' == Rewired(Listing(Without(l3.p, fst), l3.home), fst, [])
  {
    var l2 := WithSum(l, x, fst);
    KeptAtHome(l2.p.blocks, l2.home, fst);
    var l3 := Rewired(l2, x, [l.p.nodes[fst].inputs[0], |l.p.nodes|]);
    var l5 := Rewired(Listing(Without(l3.p, fst), l3.home), fst, []);
    assert l5.p.nodes == l'.p.nodes;
    assert l5.p.blocks == l'.p.blocks;
  }

  /** The merge leaves definitions above their uses exactly if the second amount stands above the first shift. */
  lemma MergedSsaIff(g: Graph, entry: nat, l: Listing, l': Listing, x: nat, fst: nat)
    requires Good(g, entry, l) && TwoShifts(l, x, fst) && Merged(l, l', x)
    ensures Ssa(g, entry, l'.p, l'.home) <==> AmountAbove(g, entry, l, x, fst)
  {
    if AmountAbove(g, entry, l, x, fst) {
      MergedSsa(g, entry, l, l', x, fst);
    }
    if Ssa(g, entry, l'.p, l'.home) {
      SumReadsAmount(g, entry, l, l', x, fst);
    }
  }

  lemma MergedSsa(g: Graph, entry: nat, l: Listing, l': Listing, x: nat, fst: nat)
    requires Good(g, entry, l) && TwoShifts(l, x, fst) && Merged(l, l', x) && AmountAbove(g, entry, l, x, fst)
    ensures Ssa(g, entry, l'.p, l'.home)
  {
    var b, n, x0 := WithSum(l, x, fst), |l.p.nodes|, l.p.nodes[fst].inputs[0];
    OperandsOfMerged(g, entry, l, x, fst);
    RewiredSsa(g, entry, b, x, [x0, n]);
    RewiredClosed(b.p.nodes, x, [x0, n]);
    var l3 := Rewired(b, x, [x0, n]);
    FstIsDead(g, entry, l, x, fst);
    SsaKept(g, entry, l3, fst);
    InKept(l3.p.blocks, l3.home, fst, fst);
    MergedIs(l, l', x, fst);
    ClearedSsa(g, entry, Listing(Without(l3.p, fst), l3.home), fst);
  }

  lemma ClearedSsa(g: Graph, entry: nat, l: Listing, fst: nat)
    requires Ssa(g, entry, l.p, l.home) && fst < |l.p.nodes| && IsPure(l.p.nodes[fst])
    requires !In(l.p.blocks, l.home, fst)
    ensures Ssa(g, entry, Rewired(l, fst, []).p, l.home)
  {
    var l' := Rewired(l, fst, []);
    forall w: nat | In(l.p.blocks, l.home, w) && w < |l.p.nodes| && !l.p.nodes[w].op.Phi?
      ensures OperandsAbove(g, entry, l'.p, l.home, w)
    {
      forall k | k in Kills(l'.p.nodes, w) ensures Above(g, entry, l.p.blocks, l.home, k, w) {
        SameWrites(l, fst, [], k);
        assert k in Kills(l.p.nodes, w);
      }
    }
  }

  lemma SumReadsAmount(g: Graph, entry: nat, l: Listing, l': Listing, x: nat, fst: nat)
    requires Good(g, entry, l) && TwoShifts(l, x, fst) && Merged(l, l', x) && Ssa(g, entry, l'.p, l'.home)
    ensures AmountAbove(g, entry, l, x, fst)
  {
    var b, n, c2 := WithSum(l, x, fst), |l.p.nodes|, l.p.nodes[x].inputs[1];
    ExtendedSsa(g, entry, l, SumOf(l, x, fst), l.home[fst]);
    InsertedPlaced(l.p.blocks, b.home, fst, n);
    InsertedMembers(l.p.blocks[l.home[fst]], fst, n, n);
    MergedIs(l, l', x, fst);
    InKept(b.p.blocks, b.home, fst, n);
    assert ReadsValue(l.p.nodes[x], c2);
    assert c2 in Kills(l'.p.nodes, n);
    AboveKept(g, entry, b.p.blocks, b.home, fst, c2, n);
    InsertedAbove(g, entry, l.p.blocks, b.home, fst, n, c2);
    assert Above(g, entry, l.p.blocks, b.home, c2, fst);
  }

  lemma MergedTyped(l: Listing, l': Listing, x: nat, fst: nat)
    requires Closed(l.p.nodes) && TwoShifts(l, x, fst) && WellTyped(l.p.nodes) && Merged(l, l', x)
    ensures WellTyped(l'.p.nodes)
  {
    assert Typed(l.p.nodes, l.p.nodes[x]) && Typed(l.p.nodes, l.p.nodes[fst]);
    forall u | 0 <= u < |l'.p.nodes| ensures Typed(l'.p.nodes, l'.p.nodes[u]) {
      if u < |l.p.nodes| {
        assert Typed(l.p.nodes, l.p.nodes[u]);
      }
    }
  }

  // ----- the pass -----

  lemma SwapPreserves(g: Graph, entry: nat, l: Listing, x: nat)
    requires Good(g, entry, l) && WellTyped(l.p.nodes) && IsLive(l.p.nodes, x) && NeedsSwap(l.p.nodes, x)
    ensures Step(g, entry, l, Swapped(l, x)) && WellTyped(Swapped(l, x).p.nodes)
  {
    SwapStep(g, entry, l, x);
    assert Typed(l.p.nodes, l.p.nodes[x]);
    forall u | 0 <= u < |l.p.nodes| ensures Typed(Swapped(l, x).p.nodes, Swapped(l, x).p.nodes[u]) {
      assert Typed(l.p.nodes, l.p.nodes[u]);
    }
  }

  /** The instruction that goes stands in a block and no phi entry names it; shift amounts that are added
      stay in range. */
  ghost predicate Clean(g: Graph, entry: nat, l: Listing, x: nat) {
    match Rule(l.p.nodes, x)
    case Some(_) => In(l.p.blocks, l.home, x) && NoPhiReads(l.p.nodes, x)
    case None => MergeShape(l.p.nodes, x) ==>
      var fst := l.p.nodes[x].inputs[0];
      In(l.p.blocks, l.home, x) && In(l.p.blocks, l.home, fst) && NoPhiReads(l.p.nodes, fst)
      && SumInRange(l.p.nodes, x, fst) && AmountAbove(g, entry, l, x, fst)
  }

  lemma FoldPreserves(g: Graph, entry: nat, l: Listing, mid: Listing, l': Listing, x: nat) returns (steps: seq<Listing>)
    requires Good(g, entry, l) && WellTyped(l.p.nodes) && FoldStep(l, mid, l', x)
             && (l' != mid ==> Clean(g, entry, mid, x))
    ensures Chain(g, entry, l, steps, l') && Good(g, entry, l') && WellTyped(l'.p.nodes)
  {
    var front: seq<Listing> := [];
    assert Chain(g, entry, l, [], l);
    if mid != l {
      SwapPreserves(g, entry, l, x);
      OneStep(g, entry, l, [], l, mid);
      front := [] + [l];
    }
    var back := AfterSwap(g, entry, mid, l', x);
    JoinChains(g, entry, l, front, mid, back, l');
    steps := front + back;
  }

  lemma AfterSwap(g: Graph, entry: nat, mid: Listing, l': Listing, x: nat) returns (steps: seq<Listing>)
    requires Good(g, entry, mid) && WellTyped(mid.p.nodes) && (l' != mid ==> Clean(g, entry, mid, x))
    requires l' == mid
             || (Rule(mid.p.nodes, x).Some? && Removed(mid, l', x, Rule(mid.p.nodes, x).value))
             || (MergeShape(mid.p.nodes, x) && OnlyReader(mid.p.nodes, x) && Merged(mid, l', x))
    ensures Chain(g, entry, mid, steps, l') && Good(g, entry, l') && WellTyped(l'.p.nodes)
  {
    if l' == mid {
      steps := [];
    } else if Rule(mid.p.nodes, x).Some? {
      steps := RulePreserves(g, entry, mid, l', x, Rule(mid.p.nodes, x).value);
    } else {
      var fst := mid.p.nodes[x].inputs[0];
      steps := MergePreserves(g, entry, mid, l', x, fst);
      MergedTyped(mid, l', x, fst);
    }
  }
}
