/** The constant folder: a binary operation on two constants becomes the constant they give. */
module ConstantFolding {
  import opened Wrappers
  import opened Graphs
  import opened Arithmetic
  import opened Occurrences
  import opened Code
  import opened Runs
  import opened Rewriting
  import opened DefUse
  import opened Equivalence
  import opened FoldSteps
  import opened PeepHoles
  import opened PeepHoleProofs
  import PeepHolePass

  predicate IsFoldable(nodes: seq<Node>, x: nat) {
    x < |nodes| && nodes[x].op.Bin? && |nodes[x].inputs| == 2
    && IsConst(nodes, nodes[x].inputs[0]) && IsConst(nodes, nodes[x].inputs[1])
  }

  /** The value of the operation on its two constants, in the type of the left one. */
  function BinEval(nodes: seq<Node>, x: nat): Option<int>
    requires IsFoldable(nodes, x) && Foldable(nodes[x].op.oper)
  {
    var lval, rval := nodes[x].inputs[0], nodes[x].inputs[1];
    Eval(nodes[x].op.oper, nodes[lval].ty, nodes[lval].op.value, nodes[rval].op.value)
  }

  /** `ArithmeticError`: a shift amount is out of range. `Aborted`: the original stops at an assertion, on
      repeated operands or an operation without a meaning for constants. */
  datatype FoldResult = Folded | ArithmeticError | Aborted

  /** A new constant stands where `x` stood, and the users of `x` read it. */
  ghost predicate Replaced(l: Listing, l': Listing, x: nat, value: int) {
    && IsFoldable(l.p.nodes, x) && x < |l.home| == |l.p.nodes| && l.home[x] < |l.p.blocks|
    && var n := |l.p.nodes|;
       && l'.p.nodes == RedirectAll(l.p.nodes, x, n)[x := l.p.nodes[x].(inputs := [])]
                        + [Node(Const(value), l.p.nodes[l.p.nodes[x].inputs[0]].ty, [])]
       && l'.home == l.home + [l.home[x]]
       && l'.p.blocks == l.p.blocks[l.home[x] := Keep(InsertBefore(l.p.blocks[l.home[x]], x, n), {x})]
  }

  ghost predicate ConstStep(l: Listing, l': Listing, x: nat) {
    && IsFoldable(l.p.nodes, x) && Foldable(l.p.nodes[x].op.oper) && BinEval(l.p.nodes, x).Some?
    && Replaced(l, l', x, BinEval(l.p.nodes, x).value)
  }

  method Fold(body: Body, x: nat) returns (outcome: FoldResult)
    requires Usable(body) && IsFoldable(body.nodes, x)
    modifies body
    ensures outcome.Folded? <==> old(Foldable(body.nodes[x].op.oper) && BinEval(body.nodes, x).Some?
                                     && body.nodes[x].inputs[0] != body.nodes[x].inputs[1])
    ensures outcome.ArithmeticError? <==> old(Foldable(body.nodes[x].op.oper) && BinEval(body.nodes, x).None?)
    ensures outcome.Folded? ==> Usable(body) && ConstStep(old(ListingOf(body)), ListingOf(body), x)
    ensures outcome.ArithmeticError? ==> ListingOf(body) == old(ListingOf(body))
  {
    var lval, rval := body.nodes[x].inputs[0], body.nodes[x].inputs[1];
    if !Foldable(body.nodes[x].op.oper) {
      return Aborted;
    }
    var result := BinEval(body.nodes, x);
    if result.None? {
      return ArithmeticError;
    }
    var newInst := body.NewInst(Const(result.value), body.nodes[lval].ty, body.home[x]);
    TwoDistinct(body.nodes[x].inputs);
    var ok := body.ClearInputs(x);
    if !ok {
      return Aborted;
    }
    body.ReplaceInst(x, newInst);
    ReplacedNodes(old(body.nodes), body.nodes, x, result.value);
    return Folded;
  }

  lemma ReplacedNodes(nodes: seq<Node>, nodes': seq<Node>, x: nat, value: int)
    requires IsFoldable(nodes, x) && |nodes'| == |nodes| + 1
    requires Redirected((nodes + [Node(Const(value), nodes[nodes[x].inputs[0]].ty, [])])[x := nodes[x].(inputs := [])],
                        nodes', x, |nodes|)
    ensures nodes' == RedirectAll(nodes, x, |nodes|)[x := nodes[x].(inputs := [])]
                      + [Node(Const(value), nodes[nodes[x].inputs[0]].ty, [])]
  {
  }

  // ----- keeping the runs -----

  ghost function WithConst(l: Listing, x: nat, value: int): Listing
    requires x < |l.home| && |l.home| == |l.p.nodes| && l.home[x] < |l.p.blocks| && IsFoldable(l.p.nodes, x)
  {
    var l1 := Extended(l, Node(Const(value), l.p.nodes[l.p.nodes[x].inputs[0]].ty, []), l.home[x]);
    l1.(p := l1.p.(blocks := l.p.blocks[l.home[x] := InsertBefore(l.p.blocks[l.home[x]], x, |l.p.nodes|)]))
  }

  lemma AddConst(g: Graph, entry: nat, l: Listing, x: nat, value: int)
    requires Good(g, entry, l) && IsFoldable(l.p.nodes, x) && In(l.p.blocks, l.home, x)
    ensures var n := Node(Const(value), l.p.nodes[l.p.nodes[x].inputs[0]].ty, []);
            var l1 := Extended(l, n, l.home[x]);
            && Step(g, entry, l, l1) && Step(g, entry, l1, WithConst(l, x, value))
            && In(WithConst(l, x, value).p.blocks, l1.home, x)
  {
    var node := Node(Const(value), l.p.nodes[l.p.nodes[x].inputs[0]].ty, []);
    var n, l1 := |l.p.nodes|, Extended(l, node, l.home[x]);
    ExtendStep(g, entry, l, node, l.home[x]);
    forall u: nat | u < |l1.p.nodes| ensures !ReadsValue(l1.p.nodes[u], n) {
      assert u < n ==> l1.p.nodes[u] == l.p.nodes[u];
    }
    InsertStep(g, entry, l1, x, n);
    InsertedMembers(l1.p.blocks[l1.home[x]], x, n, x);
  }

  /** The new constant stands above the operation and has its result. */
  lemma ConstIsSame(g: Graph, entry: nat, l: Listing, x: nat)
    requires IsFoldable(l.p.nodes, x) && Foldable(l.p.nodes[x].op.oper) && BinEval(l.p.nodes, x).Some?
    requires WellTyped(l.p.nodes) && Good(g, entry, l) && In(l.p.blocks, l.home, x)
    requires Good(g, entry, WithConst(l, x, BinEval(l.p.nodes, x).value))
    ensures var l2 := WithConst(l, x, BinEval(l.p.nodes, x).value);
            && Above(g, entry, l2.p.blocks, l2.home, |l.p.nodes|, x) && SameResult(g, entry, l2, x, |l.p.nodes|)
  {
    var n, c := l.p.nodes[x], |l.p.nodes|;
    var l2 := WithConst(l, x, BinEval(l.p.nodes, x).value);
    assert Typed(l.p.nodes, n) && Typed(l.p.nodes, l.p.nodes[n.inputs[0]]) && Typed(l.p.nodes, l.p.nodes[n.inputs[1]]);
    InsertedPrecedes(l.p.blocks[l.home[x]], x, c);
    InsertedMembers(l.p.blocks[l.home[x]], x, c, c);
    InsertedMembers(l.p.blocks[l.home[x]], x, c, x);
    assert n.inputs[0] in Kills(l2.p.nodes, x) && n.inputs[1] in Kills(l2.p.nodes, x);
    forall env | AboveSettled(g, entry, l2.p, l2.home, x, env)
      ensures Result(l2.p.nodes, n, env) == Some(Val(l2.p.nodes, env, c))
    {
      assert Settled(l2.p.nodes, c, env) && Settled(l2.p.nodes, n.inputs[0], env)
             && Settled(l2.p.nodes, n.inputs[1], env);
    }
  }

  /** Folding one operation keeps every run. */
  lemma ConstStepPreserves(g: Graph, entry: nat, l: Listing, l': Listing, x: nat) returns (steps: seq<Listing>)
    requires Good(g, entry, l) && WellTyped(l.p.nodes) && ConstStep(l, l', x)
    requires In(l.p.blocks, l.home, x) && NoPhiReads(l.p.nodes, x)
    ensures Chain(g, entry, l, steps, l') && Good(g, entry, l') && WellTyped(l'.p.nodes)
  {
    var value, n := BinEval(l.p.nodes, x).value, |l.p.nodes|;
    var l1 := Extended(l, Node(Const(value), l.p.nodes[l.p.nodes[x].inputs[0]].ty, []), l.home[x]);
    var l2 := WithConst(l, x, value);
    AddConst(g, entry, l, x, value);
    ConstIsSame(g, entry, l, x);
    IsRemoved(g, entry, l, l', x, value);
    var back := RemovedPreserves(g, entry, l2, l', x, n);
    assert Chain(g, entry, l, [], l);
    OneStep(g, entry, l, [], l, l1);
    OneStep(g, entry, l, [] + [l], l1, l2);
    JoinChains(g, entry, l, [] + [l] + [l1], l2, back, l');
    steps := [] + [l] + [l1] + back;
    ConstTyped(l, l', x, value);
  }

  lemma IsRemoved(g: Graph, entry: nat, l: Listing, l': Listing, x: nat, value: int)
    requires Good(g, entry, l) && Replaced(l, l', x, value) && In(l.p.blocks, l.home, x)
    ensures Removed(WithConst(l, x, value), l', x, |l.p.nodes|)
  {
    var l2, n := WithConst(l, x, value), |l.p.nodes|;
    assert l2.p.blocks[l2.home[x]] == InsertBefore(l.p.blocks[l.home[x]], x, n);
    assert l'.p.blocks == l2.p.blocks[l2.home[x] := Keep(l2.p.blocks[l2.home[x]], {x})];
    assert RedirectNode(l2.p.nodes[n], x, n) == l2.p.nodes[n];
  }

  lemma ConstTyped(l: Listing, l': Listing, x: nat, value: int)
    requires WellTyped(l.p.nodes) && Closed(l.p.nodes) && Replaced(l, l', x, value)
    requires Foldable(l.p.nodes[x].op.oper) && BinEval(l.p.nodes, x) == Some(value)
    ensures WellTyped(l'.p.nodes)
  {
    assert Typed(l.p.nodes, l.p.nodes[x]);
    forall u | 0 <= u < |l'.p.nodes| ensures Typed(l'.p.nodes, l'.p.nodes[u]) {
      if u < |l.p.nodes| {
        assert Typed(l.p.nodes, l.p.nodes[u]);
        RedirectAt(l.p.nodes[u].inputs, x, |l.p.nodes|);
      }
    }
  }

  // ----- the pass -----

  function Foldables(nodes: seq<Node>, ids: seq<nat>): seq<nat> {
    if ids == [] then []
    else
      var front, last := Foldables(nodes, ids[..|ids| - 1]), ids[|ids| - 1];
      if IsFoldable(nodes, last) then front + [last] else front
  }

  ghost predicate ConstTrace(trace: seq<Listing>, cands: seq<nat>) {
    |trace| == |cands| + 1 && forall i :: 0 <= i < |cands| ==> ConstStep(trace[i], trace[i + 1], cands[i])
  }

  /** The operations on two constants in the given blocks, as the code is now. */
  method FindFoldable(body: Body, rpo: seq<nat>) returns (toFold: seq<nat>)
    requires forall b :: b in rpo ==> b < |body.blocks|
    ensures toFold == Foldables(body.nodes, Bins(body.nodes, Flat(body.blocks, rpo)))
  {
    var cands := FindCandidates(body, rpo);
    toFold := [];
    for i := 0 to |cands|
      invariant toFold == Foldables(body.nodes, cands[..i])
    {
      assert cands[..i + 1][..i] == cands[..i];
      if IsFoldable(body.nodes, cands[i]) {
        toFold := toFold + [cands[i]];
      }
    }
    assert cands[..|cands|] == cands;
  }

  // ----- how the pass ends -----

  /** The operation has a meaning for constants and a result, and does not read one constant twice. */
  predicate CanFold(nodes: seq<Node>, x: nat) {
    && IsFoldable(nodes, x) && Foldable(nodes[x].op.oper) && BinEval(nodes, x).Some?
    && nodes[x].inputs[0] != nodes[x].inputs[1]
  }

  /** A shift by an amount out of range. */
  predicate BadShift(nodes: seq<Node>, x: nat) {
    IsFoldable(nodes, x) && Foldable(nodes[x].op.oper) && BinEval(nodes, x).None?
  }

  /** All of these can be folded, one after the other. */
  ghost predicate AllFold(nodes: seq<Node>, ids: seq<nat>) {
    NoDuplicates(ids) && forall x :: x in ids ==> CanFold(nodes, x)
  }

  /** The first one that cannot be folded is a bad shift. */
  ghost predicate FailsAt(nodes: seq<Node>, ids: seq<nat>, k: nat) {
    k < |ids| && AllFold(nodes, ids[..k]) && BadShift(nodes, ids[k])
  }

  ghost predicate EndsAs(nodes: seq<Node>, ids: seq<nat>, result: FoldResult) {
    && (result.Folded? <==> AllFold(nodes, ids))
    && (result.ArithmeticError? <==> exists k: nat :: FailsAt(nodes, ids, k))
  }

  /** What has been folded has no inputs left; the other operations on two constants are as they were. */
  ghost predicate RestIs(nodes: seq<Node>, nodes': seq<Node>, done: seq<nat>) {
    && |nodes| <= |nodes'|
    && (forall u :: 0 <= u < |nodes| ==> nodes'[u].op == nodes[u].op && nodes'[u].ty == nodes[u].ty)
    && (forall u :: 0 <= u < |nodes| && IsFoldable(nodes, u) ==>
          nodes'[u].inputs == if u in done then [] else nodes[u].inputs)
  }

  lemma RestStays(nodes: seq<Node>, l: Listing, l': Listing, done: seq<nat>, x: nat)
    requires RestIs(nodes, l.p.nodes, done) && ConstStep(l, l', x) && IsFoldable(nodes, x)
    ensures RestIs(nodes, l'.p.nodes, done + [x])
  {
    forall u | 0 <= u < |nodes| && IsFoldable(nodes, u)
      ensures l'.p.nodes[u].inputs == if u in done + [x] then [] else nodes[u].inputs
    {
      RedirectNone(l.p.nodes[u].inputs, x, |l.p.nodes|);
    }
  }

  lemma SameOutlook(nodes: seq<Node>, nodes': seq<Node>, done: seq<nat>, x: nat)
    requires RestIs(nodes, nodes', done) && IsFoldable(nodes, x)
    ensures IsFoldable(nodes', x) <==> x !in done
    ensures x !in done && Foldable(nodes[x].op.oper) ==> BinEval(nodes', x) == BinEval(nodes, x)
    ensures x !in done ==> nodes'[x] == nodes[x]
  {
  }

  lemma FirstFailure(nodes: seq<Node>, ids: seq<nat>, i: nat, result: FoldResult)
    requires i < |ids| && AllFold(nodes, ids[..i]) && !result.Folded?
    requires ids[i] in ids[..i] || !CanFold(nodes, ids[i])
    requires result.ArithmeticError? <==> ids[i] !in ids[..i] && BadShift(nodes, ids[i])
    ensures EndsAs(nodes, ids, result)
  {
    if AllFold(nodes, ids) {
      SamePrefix(ids, i);
    }
    if result.ArithmeticError? {
      assert FailsAt(nodes, ids, i);
    }
    if k: nat :| FailsAt(nodes, ids, k) {
      if i < k {
        assert ids[..k][i] == ids[i] && ids[i] in ids[..k] && ids[..k][..i] == ids[..i];
        SamePrefix(ids[..k], i);
      } else if k < i {
        assert ids[..i][k] == ids[k] && ids[k] in ids[..i];
      }
    }
  }

  /** The next operation, which is left alone if it has been folded already. */
  method FoldNext(body: Body, x: nat, ghost nodes: seq<Node>, ghost done: seq<nat>) returns (result: FoldResult)
    requires Usable(body) && RestIs(nodes, body.nodes, done) && IsFoldable(nodes, x)
    modifies body
    ensures result.Folded? <==> x !in done && CanFold(nodes, x)
    ensures result.ArithmeticError? <==> x !in done && BadShift(nodes, x)
    ensures result.Folded? ==> Usable(body) && ConstStep(old(ListingOf(body)), ListingOf(body), x)
                               && RestIs(nodes, body.nodes, done + [x])
  {
    SameOutlook(nodes, body.nodes, done, x);
    if !IsFoldable(body.nodes, x) {
      return Aborted;
    }
    ghost var l := ListingOf(body);
    result := Fold(body, x);
    if result.Folded? {
      RestStays(nodes, l, ListingOf(body), done, x);
    }
  }

  /** Folds what was found, in order; a shift amount out of range ends the pass with an error. How it ends shows
      in the code at the start. */
  method FoldAll(body: Body, toFold: seq<nat>) returns (result: FoldResult, ghost trace: seq<Listing>)
    requires Usable(body) && forall x :: x in toFold ==> IsFoldable(body.nodes, x)
    modifies body
    ensures EndsAs(old(body.nodes), toFold, result)
    ensures result.Folded? ==> Usable(body) && ConstTrace(trace, toFold)
                               && trace[0] == old(ListingOf(body)) && trace[|toFold|] == ListingOf(body)
  {
    trace, result := [ListingOf(body)], Folded;
    ghost var nodes := body.nodes;
    for i := 0 to |toFold|
      invariant Usable(body) && ConstTrace(trace, toFold[..i])
      invariant trace[0] == old(ListingOf(body)) && trace[i] == ListingOf(body) && result.Folded?
      invariant AllFold(nodes, toFold[..i]) && RestIs(nodes, body.nodes, toFold[..i])
    {
      assert toFold[i] in toFold;
      result := FoldNext(body, toFold[i], nodes, toFold[..i]);
      if !result.Folded? {
        FirstFailure(nodes, toFold, i, result);
        return;
      }
      OneMore(nodes, toFold, i);
      GrownTrace(trace, toFold[..i], ListingOf(body), toFold[i]);
      trace := trace + [ListingOf(body)];
      assert toFold[..i + 1] == toFold[..i] + [toFold[i]];
    }
    assert toFold[..|toFold|] == toFold;
    NoFailure(nodes, toFold);
  }

  lemma NoFailure(nodes: seq<Node>, ids: seq<nat>)
    requires AllFold(nodes, ids)
    ensures EndsAs(nodes, ids, Folded)
  {
    forall k: nat | k < |ids| ensures !FailsAt(nodes, ids, k) {
      assert ids[k] in ids;
    }
  }

  lemma GrownTrace(trace: seq<Listing>, cands: seq<nat>, l: Listing, x: nat)
    requires ConstTrace(trace, cands) && ConstStep(trace[|cands|], l, x)
    ensures ConstTrace(trace + [l], cands + [x])
  {
  }

  lemma OneMore(nodes: seq<Node>, ids: seq<nat>, i: nat)
    requires i < |ids| && AllFold(nodes, ids[..i]) && CanFold(nodes, ids[i]) && ids[i] !in ids[..i]
    ensures AllFold(nodes, ids[..i + 1])
  {
    assert ids[..i + 1] == ids[..i] + [ids[i]] && ids[..i + 1][..i] == ids[..i];
  }

  /** What is folded are the operations on two constants of the reachable blocks, in reverse post-order. */
  ghost predicate FoundIn(g: Graph, entry: nat, rpo: seq<nat>, p: Program, toFold: seq<nat>) {
    && (exists s :: Dfs.IsReversePostOrder(g, entry, rpo, s))
    && toFold == Foldables(p.nodes, Bins(p.nodes, Flat(p.blocks, rpo)))
  }

  method Run(body: Body, g: Graph, entry: nat)
    returns (result: FoldResult, ghost trace: seq<Listing>, ghost toFold: seq<nat>)
    requires Usable(body) && ValidGraph(g) && entry < |g| == |body.blocks|
    modifies body
    ensures EndsAs(old(body.nodes), toFold, result)
    ensures result.Folded? ==> Usable(body) && ConstTrace(trace, toFold)
                               && trace[0] == old(ListingOf(body)) && trace[|toFold|] == ListingOf(body)
    ensures exists rpo :: FoundIn(g, entry, rpo, old(ListingOf(body)).p, toFold)
  {
    var rpo; ghost var s;
    rpo, s := Dfs.ReversePostOrder(g, Some(entry));
    forall n | n in rpo ensures n < |g| {
      var i :| 0 <= i < |rpo| && rpo[i] == n;
      Dfs.ReversePostOrderFacts(g, entry, rpo, s, i, i);
      var path :| EntryPath(g, entry, path, n);
    }
    var found := FindFoldable(body, rpo);
    toFold := found;
    forall x | x in found ensures IsFoldable(body.nodes, x) {
      FoldablesMembers(body.nodes, Bins(body.nodes, Flat(body.blocks, rpo)), x);
    }
    assert FoundIn(g, entry, rpo, ListingOf(body).p, toFold);
    result, trace := FoldAll(body, found);
  }

  // ----- the runs -----

  /** Instructions keep their kinds, new ones are constants; what is to be folded and in no block has been
      folded, and its inputs are gone. */
  ghost predicate PassInv(l0: Listing, all: seq<nat>, l: Listing) {
    && SameShape(l0.p.nodes, l.p.nodes) && (forall u :: |l0.p.nodes| <= u < |l.p.nodes| ==> l.p.nodes[u].op.Const?)
    && PeepHolePass.Attached(l, all)
  }

  lemma StepKeeps(g: Graph, entry: nat, l0: Listing, all: seq<nat>, l: Listing, l': Listing, x: nat)
    requires PassInv(l0, all, l) && ConstStep(l, l', x) && Placed(l.p.blocks, l.home) && In(l.p.blocks, l.home, x)
    ensures PassInv(l0, all, l')
  {
    forall c | c in all ensures c < |l'.p.nodes| && (In(l'.p.blocks, l'.home, c) || l'.p.nodes[c].inputs == []) {
      if In(l.p.blocks, l.home, c) && l.home[c] == l.home[x] {
        InsertedMembers(l.p.blocks[l.home[x]], x, |l.p.nodes|, c);
        KeepMembers(InsertBefore(l.p.blocks[l.home[x]], x, |l.p.nodes|), {x}, c);
      }
      RedirectAt(l.p.nodes[c].inputs, x, |l.p.nodes|);
    }
  }

  lemma PhisStay(l0: Listing, all: seq<nat>, l: Listing, x: nat)
    requires PassInv(l0, all, l) && NoPhiReads(l0.p.nodes, x)
    ensures NoPhiReads(l.p.nodes, x)
  {
    forall u: nat, i: nat | u < |l.p.nodes| && l.p.nodes[u].op.Phi? && i < |l.p.nodes[u].op.entries|
      ensures l.p.nodes[u].op.entries[i].val != x
    {
      assert u < |l0.p.nodes| && l.p.nodes[u].op == l0.p.nodes[u].op;
    }
  }

  lemma {:induction false} PassPreserves(g: Graph, entry: nat, all: seq<nat>, trace: seq<Listing>, cands: seq<nat>)
    returns (steps: seq<Listing>)
    requires ConstTrace(trace, cands) && Good(g, entry, trace[0]) && WellTyped(trace[0].p.nodes)
    requires PassInv(trace[0], all, trace[0]) && forall x :: x in cands ==> x in all && NoPhiReads(trace[0].p.nodes, x)
    ensures Chain(g, entry, trace[0], steps, trace[|cands|])
    ensures Good(g, entry, trace[|cands|]) && WellTyped(trace[|cands|].p.nodes)
            && PassInv(trace[0], all, trace[|cands|])
  {
    if cands == [] {
      steps := [];
    } else {
      var n := |cands| - 1;
      assert forall i :: 0 <= i <= n ==> trace[..n + 1][i] == trace[i];
      var front := PassPreserves(g, entry, all, trace[..n + 1], cands[..n]);
      PhisStay(trace[0], all, trace[n], cands[n]);
      var back := ConstStepPreserves(g, entry, trace[n], trace[n + 1], cands[n]);
      StepKeeps(g, entry, trace[0], all, trace[n], trace[n + 1], cands[n]);
      JoinChains(g, entry, trace[0], front, trace[n], back, trace[n + 1]);
      steps := front + back;
    }
  }

  lemma FoundStand(l: Listing, rpo: seq<nat>)
    requires |l.home| == |l.p.nodes| && Placed(l.p.blocks, l.home)
    ensures PeepHolePass.Attached(l, Foldables(l.p.nodes, Bins(l.p.nodes, Flat(l.p.blocks, rpo))))
  {
    PeepHolePass.CandidatesStand(l, rpo);
    forall c | c in Foldables(l.p.nodes, Bins(l.p.nodes, Flat(l.p.blocks, rpo)))
      ensures c in Bins(l.p.nodes, Flat(l.p.blocks, rpo))
    {
      FoldablesMembers(l.p.nodes, Bins(l.p.nodes, Flat(l.p.blocks, rpo)), c);
    }
  }

  lemma {:induction false} FoldablesMembers(nodes: seq<Node>, ids: seq<nat>, c: nat)
    ensures c in Foldables(nodes, ids) <==> c in ids && IsFoldable(nodes, c)
  {
    if ids != [] {
      FoldablesMembers(nodes, ids[..|ids| - 1], c);
      assert ids == ids[..|ids| - 1] + [ids[|ids| - 1]];
    }
  }

  /** The pass as `Run` describes it keeps every run on every machine, if no phi takes what is folded. */
  lemma FoldingPreservesRuns<W(!new)>(m: Machine<W>, g: Graph, entry: nat, trace: seq<Listing>, toFold: seq<nat>,
                                      rpo: seq<nat>, s: State<W>, n: nat)
    requires ConstTrace(trace, toFold) && FoundIn(g, entry, rpo, trace[0].p, toFold)
    requires Good(g, entry, trace[0]) && WellTyped(trace[0].p.nodes)
    requires forall x :: x in toFold ==> NoPhiReads(trace[0].p.nodes, x)
    ensures Observe(RunFor(m, g, entry, trace[|toFold|].p, s, n)) == Observe(RunFor(m, g, entry, trace[0].p, s, n))
  {
    FoundStand(trace[0], rpo);
    var steps := PassPreserves(g, entry, toFold, trace, toFold);
    ChainPreserves(m, g, entry, trace[0], steps, trace[|toFold|], s, n);
  }

  /** Both operands are constants. */
  ghost predicate OnConstants(nodes: seq<Node>, x: nat) {
    && x < |nodes| && nodes[x].op.Bin? && |nodes[x].inputs| == 2
    && forall v :: v in nodes[x].inputs ==> v < |nodes| && nodes[v].op.Const?
  }

  lemma FoldableIff(nodes: seq<Node>, x: nat)
    ensures IsFoldable(nodes, x) <==> OnConstants(nodes, x)
  {
    if x < |nodes| && |nodes[x].inputs| == 2 {
      assert nodes[x].inputs == [nodes[x].inputs[0], nodes[x].inputs[1]];
      assert nodes[x].inputs[0] in nodes[x].inputs && nodes[x].inputs[1] in nodes[x].inputs;
    }
  }

  /** What is to be folded: operations listed in reachable blocks both of whose operands are constants. */
  lemma FoundIff(g: Graph, entry: nat, rpo: seq<nat>, p: Program, toFold: seq<nat>, x: nat)
    requires ValidGraph(g) && |g| == |p.blocks| && FoundIn(g, entry, rpo, p, toFold)
    ensures x in toFold <==> IsListed(g, entry, p.blocks, x) && OnConstants(p.nodes, x)
  {
    FoldablesMembers(p.nodes, Bins(p.nodes, Flat(p.blocks, rpo)), x);
    CandidateIff(g, entry, rpo, p, x);
    FoldableIff(p.nodes, x);
  }
}
