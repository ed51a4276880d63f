/** Which candidates the peephole pass changes, by their operations and constants. */
module PeepHoleLaws {
  import opened Wrappers
  import opened Arithmetic
  import opened Occurrences
  import opened Code
  import opened DefUse
  import opened Equivalence
  import opened FoldSteps
  import opened PeepHoles

  /** `x` is this operation on these two values. */
  ghost predicate Is(nodes: seq<Node>, x: nat, oper: Oper, a: nat, b: nat) {
    x < |nodes| && nodes[x].op == Bin(oper) && nodes[x].inputs == [a, b] && a < |nodes| && b < |nodes|
  }

  ghost predicate HasValue(nodes: seq<Node>, c: nat, value: int) {
    c < |nodes| && nodes[c].op == Const(value)
  }

  // ----- the rules by what the operators compute -----

  /** Every number of the type keeps its value when combined with `c`. */
  ghost predicate Neutral(oper: Oper, ty: Ty, c: int)
    requires Foldable(oper)
  {
    forall v :: InRange(ty, v) ==> Eval(oper, ty, v, c) == Some(v)
  }

  /** Every number of the type combined with `c` gives `c`. */
  ghost predicate Absorbing(oper: Oper, ty: Ty, c: int)
    requires Foldable(oper)
  {
    forall v :: InRange(ty, v) ==> Eval(oper, ty, v, c) == Some(c)
  }

  lemma NeutralIff(oper: Oper, ty: Ty, c: int)
    requires (oper.Add? || oper.Shr? || oper.Or?) && InRange(ty, c)
    ensures Neutral(oper, ty, c) <==> c == 0
  {
    if Neutral(oper, ty, c) {
      assert InRange(ty, 0) && Eval(oper, ty, 0, c) == Some(0);
      assert InRange(ty, 1) && Eval(oper, ty, 1, c) == Some(1);
    }
    if c == 0 {
      forall v | InRange(ty, v) ensures Eval(oper, ty, v, 0) == Some(v) {
        OrWithZero(ty, v);
      }
    }
  }

  lemma AbsorbingIff(ty: Ty, c: int)
    requires InRange(ty, c)
    ensures Absorbing(Or, ty, c) <==> c == if ty.I1? then 1 else -1
  {
    var ones := if ty.I1? then 1 else -1;
    if Absorbing(Or, ty, c) {
      assert InRange(ty, ones) && Eval(Or, ty, ones, c) == Some(c);
      if ty.I1? {
        OrZero(1);
      }
    }
    if c == ones {
      forall v | InRange(ty, v) ensures Eval(Or, ty, v, c) == Some(c) {
        OrWithOnes(ty, v);
      }
    }
  }

  /** An addition, a shift or an or gives its left operand exactly if the right one is a constant that changes
      nothing, and an or gives its right one exactly if that is a constant that nothing changes. */
  lemma RuleIff(nodes: seq<Node>, x: nat, oper: Oper, a: nat, b: nat)
    requires Is(nodes, x, oper, a, b) && (oper.Add? || oper.Shr? || oper.Or?) && a != b
    requires WellTyped(nodes) && nodes[b].ty == nodes[x].ty
    ensures Rule(nodes, x) == Some(a) <==> IsConst(nodes, b) && Neutral(oper, nodes[x].ty, nodes[b].op.value)
    ensures Rule(nodes, x) == Some(b)
            <==> oper.Or? && IsConst(nodes, b) && Absorbing(Or, nodes[x].ty, nodes[b].op.value)
    ensures Rule(nodes, x).Some? ==> Rule(nodes, x) == Some(a) || Rule(nodes, x) == Some(b)
  {
    if IsConst(nodes, b) {
      assert Typed(nodes, nodes[b]);
      NeutralIff(oper, nodes[x].ty, nodes[b].op.value);
      AbsorbingIff(nodes[x].ty, nodes[b].op.value);
    }
  }

  // ----- what a step does -----

  /** Whoever read `x` reads `y` now and the others read what they read before; `x` is in no block. */
  ghost predicate Replaced(l: Listing, l': Listing, x: nat, y: nat) {
    && |l'.p.nodes| == |l.p.nodes| && |l'.p.blocks| == |l.p.blocks| && l'.home == l.home && x < |l.home|
    && (forall u: nat, i: nat :: u < |l.p.nodes| && u != x && i < |l.p.nodes[u].inputs| ==>
          ReadsNow(l.p.nodes[u], l'.p.nodes[u], i, x, y))
    && (forall u: nat :: u < |l.p.nodes| ==> l'.p.nodes[u].op == l.p.nodes[u].op)
    && (forall b: nat, u: nat :: b < |l.p.blocks| ==>
          (u in l'.p.blocks[b] <==> u in l.p.blocks[b] && !(b == l.home[x] && u == x)))
  }

  ghost predicate ReadsNow(n: Node, n': Node, i: nat, x: nat, y: nat)
    requires i < |n.inputs|
  {
    |n'.inputs| == |n.inputs| && n'.inputs[i] == if n.inputs[i] == x then y else n.inputs[i]
  }

  lemma RemovedIsReplaced(l: Listing, mid: Listing, l': Listing, x: nat, y: nat)
    requires Removed(mid, l', x, y) && (mid == l || (IsLive(l.p.nodes, x) && mid == Swapped(l, x)))
    requires x < |l.home|
    ensures Replaced(l, l', x, y)
  {
    forall u: nat, i: nat | u < |l.p.nodes| && u != x && i < |l.p.nodes[u].inputs|
      ensures ReadsNow(l.p.nodes[u], l'.p.nodes[u], i, x, y)
    {
      RedirectAt(mid.p.nodes[u].inputs, x, y);
    }
    forall b: nat, u: nat | b < |l.p.blocks|
      ensures u in l'.p.blocks[b] <==> u in l.p.blocks[b] && !(b == l.home[x] && u == x)
    {
      KeepMembers(l.p.blocks[l.home[x]], {x}, u);
    }
  }

  /** Zero on either side of an addition or an or, the other operand being no constant: readers get that. */
  lemma ZeroGoes(l: Listing, mid: Listing, l': Listing, x: nat, oper: Oper, a: nat, c: nat)
    requires FoldStep(l, mid, l', x) && HasReader(l.p.nodes, x) && x < |l.home| && (oper.Add? || oper.Or?)
    requires Is(l.p.nodes, x, oper, a, c) || Is(l.p.nodes, x, oper, c, a)
    requires HasValue(l.p.nodes, c, 0) && !l.p.nodes[a].op.Const?
    ensures Replaced(l, l', x, a)
  {
    RemovedIsReplaced(l, mid, l', x, a);
  }

  /** A shift by zero. */
  lemma ZeroShiftGoes(l: Listing, mid: Listing, l': Listing, x: nat, a: nat, c: nat)
    requires FoldStep(l, mid, l', x) && HasReader(l.p.nodes, x) && x < |l.home|
    requires Is(l.p.nodes, x, Shr, a, c) && HasValue(l.p.nodes, c, 0)
    ensures Replaced(l, l', x, a)
  {
    RemovedIsReplaced(l, mid, l', x, a);
  }

  /** All bits on either side of an or, the other operand being no constant: readers get the constant. */
  lemma OnesGo(l: Listing, mid: Listing, l': Listing, x: nat, a: nat, c: nat)
    requires FoldStep(l, mid, l', x) && HasReader(l.p.nodes, x) && x < |l.home|
    requires Is(l.p.nodes, x, Or, a, c) || Is(l.p.nodes, x, Or, c, a)
    requires HasValue(l.p.nodes, c, if l.p.nodes[c].ty.I1? then 1 else -1) && !l.p.nodes[a].op.Const?
    ensures Replaced(l, l', x, c)
  {
    RemovedIsReplaced(l, mid, l', x, c);
  }

  /** Two constants: only the right one counts. */
  lemma RightZeroGoes(l: Listing, mid: Listing, l': Listing, x: nat, oper: Oper, a: nat, c: nat)
    requires FoldStep(l, mid, l', x) && HasReader(l.p.nodes, x) && x < |l.home| && (oper.Add? || oper.Or?)
    requires Is(l.p.nodes, x, oper, a, c) && l.p.nodes[a].op.Const? && l.p.nodes[c].op.Const?
    ensures HasValue(l.p.nodes, c, 0) ==> Replaced(l, l', x, a)
    ensures oper.Add? && !HasValue(l.p.nodes, c, 0) ==> l' == l
  {
    if HasValue(l.p.nodes, c, 0) {
      RemovedIsReplaced(l, mid, l', x, a);
    }
  }

  /** A shift by `c2` of a shift of `v` by `c1` that nobody else reads: it becomes a shift of `v` by their sum, a new
      instruction in the place of the inner shift. */
  lemma ShiftsMerge(l: Listing, mid: Listing, l': Listing, x: nat, fst: nat, v: nat, c1: nat, c2: nat,
                    front: seq<nat>, back: seq<nat>)
    requires FoldStep(l, mid, l', x) && HasReader(l.p.nodes, x)
    requires Is(l.p.nodes, x, Shr, fst, c2) && Is(l.p.nodes, fst, Shr, v, c1)
    requires l.p.nodes[c1].op.Const? && l.p.nodes[c2].op.Const? && l.p.nodes[c2].op.value != 0
    requires forall u: nat :: u < |l.p.nodes| && fst in l.p.nodes[u].inputs ==> u == x
    requires fst < |l.home| && l.home[fst] < |l.p.blocks| && l.p.blocks[l.home[fst]] == front + [fst] + back
    requires fst !in front && fst !in back
    ensures var n := |l.p.nodes|;
            && |l'.p.nodes| == n + 1 && Is(l'.p.nodes, x, Shr, v, n) && Is(l'.p.nodes, n, Add, c1, c2)
            && (forall u: nat :: u < n && u != x && u != fst ==> l'.p.nodes[u] == l.p.nodes[u])
            && l'.home == l.home + [l.home[fst]]
            && l'.p.blocks == l.p.blocks[l.home[fst] := front + [n] + back]
  {
    assert !NeedsSwap(l.p.nodes, x);
    assert OnlyReader(mid.p.nodes, x);
    PutInPlace(front, fst, back, |l.p.nodes|);
  }

  /** Nothing changes without a reader, or for another operation, or without a constant, or if a constant shift is
      neither by zero nor of a constant shift. */
  lemma OthersStay(l: Listing, mid: Listing, l': Listing, x: nat, oper: Oper, a: nat, b: nat)
    requires FoldStep(l, mid, l', x) && Is(l.p.nodes, x, oper, a, b)
    ensures !HasReader(l.p.nodes, x) ==> l' == l
    ensures !(oper.Add? || oper.Shr? || oper.Or?) ==> l' == l
    ensures !l.p.nodes[a].op.Const? && !l.p.nodes[b].op.Const? ==> l' == l
    ensures oper.Shr? && !l.p.nodes[b].op.Const? ==> l' == l
    ensures oper.Shr? && !HasValue(l.p.nodes, b, 0) && l.p.nodes[a].op != Bin(Shr) ==> l' == l
  {
  }
}
