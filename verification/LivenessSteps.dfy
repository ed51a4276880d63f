/** Following the liveness pass over a given program, block by block. */
module LivenessSteps {
  import opened Ir
  import opened LinearScan
  import opened Liveness

  // ----- live sets -----

  /** The live set before instruction `k`, with `out` live at the end of the block. */
  function LiveBack(insts: seq<Inst>, k: nat, out: set<nat>): set<nat>
    requires k <= |insts|
    decreases |insts| - k
  {
    if k == |insts| then out
    else
      var i, after := insts[k], LiveBack(insts, k + 1, out);
      if i.kind.Phi? then after else after - {i.id} + (set v | v in i.Operands())
  }

  lemma {:induction false} LiveAtIs(code: Code, b: nat, k: nat)
    requires ValidCode(code) && b < |code| && k <= |code[b].insts|
    ensures LiveAt(code, b, k) == LiveBack(code[b].insts, k, LiveOut(code, b))
    decreases |code[b].insts| - k
  {
    if k < |code[b].insts| {
      LiveAtIs(code, b, k + 1);
    }
  }

  lemma LiveInIs(code: Code, b: nat)
    requires ValidCode(code) && b < |code|
    ensures LiveIn(code, b) == LiveBack(code[b].insts, 0, LiveOut(code, b)) - PhiIds(code[b].insts)
  {
    LiveAtIs(code, b, 0);
  }

  lemma OutOfNone(code: Code, b: nat)
    requires ValidCode(code) && b < |code| && code[b].succs == []
    ensures LiveOut(code, b) == {}
  {
  }

  lemma OutOfOne(code: Code, b: nat, s: nat)
    requires ValidCode(code) && b < |code| && code[b].succs == [s] && s != b
    ensures s < |code| && LiveOut(code, b) == if s > b then LiveIn(code, s) + PhiReads(code[s].insts, b) else {}
  {
    assert code[b].succs[0] == s && OutOf(code, b, 0) == {};
    assert LiveOut(code, b) == OutOf(code, b, 1);
  }

  lemma OutOfTwo(code: Code, b: nat, s: nat, t: nat)
    requires ValidCode(code) && b < |code| && code[b].succs == [s, t] && s > b && t != b
    ensures s < |code| && t < |code|
    ensures LiveOut(code, b) == LiveIn(code, s) + PhiReads(code[s].insts, b)
                                + (if t > b then LiveIn(code, t) + PhiReads(code[t].insts, b) else {})
  {
    assert code[b].succs[0] == s && code[b].succs[1] == t;
    assert OutOf(code, b, 0) == {} && OutOf(code, b, 1) == LiveIn(code, s) + PhiReads(code[s].insts, b);
    assert LiveOut(code, b) == OutOf(code, b, 2);
  }

  lemma NoPhis(insts: seq<Inst>, b: nat)
    requires forall i :: i in insts ==> !i.kind.Phi?
    ensures PhiIds(insts) == {} && PhiReads(insts, b) == {}
  {
  }

  // ----- intervals -----

  /** The intervals before instruction `k` of block `b`, from those at its end. */
  function RangesBack(code: Code, b: nat, k: nat, r: Ranges): Ranges
    requires b < |code| && k <= |code[b].insts|
    decreases |code[b].insts| - k
  {
    if k == |code[b].insts| then r
    else
      var i, after, num := code[b].insts[k], RangesBack(code, b, k + 1, r), LiveNum(code, b, k);
      if i.kind.Phi? then after
      else UpdateAll(Define(after, i.id, num), i.Operands(), Range(BlockStart(code, b), num))
  }

  lemma {:induction false} RangesAtIs(code: Code, b: nat, k: nat)
    requires ValidCode(code) && b < |code| && k <= |code[b].insts|
    ensures RangesAt(code, b, k)
         == RangesBack(code, b, k, Widen(RangesFrom(code, b + 1), LiveOut(code, b), BlockRange(code, b)))
    decreases |code[b].insts| - k
  {
    if k < |code[b].insts| {
      RangesAtIs(code, b, k + 1);
    }
  }

  /** The intervals once block `b` is done, from those behind it and what is live at its end. */
  function RangesOver(code: Code, b: nat, r: Ranges, out: set<nat>): Ranges
    requires b < |code|
  {
    RangesBack(code, b, 0, Widen(r, out, BlockRange(code, b)))
  }

  lemma BlockBecomes(code: Code, b: nat, r: Ranges, out: set<nat>, done: Ranges)
    requires ValidCode(code) && b < |code| && !IsHeader(code, b)
    requires RangesFrom(code, b + 1) == r && LiveOut(code, b) == out && RangesOver(code, b, r, out) == done
    ensures RangesFrom(code, b) == done
  {
    RangesAtIs(code, b, 0);
  }

  lemma LoopBecomes(code: Code, b: nat, r: Ranges, out: set<nat>, kept: set<nat>, done: Ranges)
    requires ValidCode(code) && b < |code| && IsHeader(code, b)
    requires RangesFrom(code, b + 1) == r && LiveOut(code, b) == out && LiveIn(code, b) == kept
    requires done == Widen(RangesOver(code, b, r, out), kept,
                           Range(BlockStart(code, b), BlockStart(code, code[b].loop.last + 1)))
    ensures RangesFrom(code, b) == done
  {
    RangesAtIs(code, b, 0);
  }

  lemma WidenNone(r: Ranges, rg: Range)
    ensures Widen(r, {}, rg) == r
  {
  }

  lemma WidenOne(r: Ranges, v: nat, rg: Range)
    ensures Widen(r, {v}, rg) == r[v := Joined(r, v, rg)]
  {
  }

  /** One read widens one interval. */
  lemma ReadOne(r: Ranges, v: nat, rg: Range)
    ensures UpdateAll(r, [v], rg) == r[v := Joined(r, v, rg)]
  {
    assert [v][..0] == [] && UpdateAll(r, [], rg) == r;
  }

  /** Only instructions without a result lose their intervals. */
  lemma IntervalsAre(code: Code, r: Ranges)
    requires ValidCode(code) && RangesFrom(code, 0) == r
    ensures Intervals(code).Keys == r.Keys
    ensures forall v :: v in r ==>
        Intervals(code)[v] == if v in NoValue(code) then Range(r[v].start, r[v].start) else r[v]
  {
  }
}
