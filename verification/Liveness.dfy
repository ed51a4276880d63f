/** The backward liveness pass as functions: live sets, then intervals. */
module Liveness {
  // One pass over the blocks in reverse linear order; a successor that has not been processed contributes
  // nothing, and the values live at the header of a reducible loop are kept live over the whole loop.

  import opened Ir
  import opened LinearScan

  const LIVE_NUM_STEP: nat := 2

  // ----- numbering -----

  function NonPhis(insts: seq<Inst>): nat {
    if insts == [] then 0
    else NonPhis(insts[..|insts| - 1]) + (if insts[|insts| - 1].kind.Phi? then 0 else 1)
  }

  /** Where the numbers of block `b` start: its predecessor in the order ends there. */
  function BlockStart(code: Code, b: nat): nat
    requires b <= |code|
  {
    if b == 0 then 0
    else BlockStart(code, b - 1) + LIVE_NUM_STEP * NonPhis(code[b - 1].insts) + LIVE_NUM_STEP
  }

  function BlockRange(code: Code, b: nat): Range
    requires b < |code|
  {
    Range(BlockStart(code, b), BlockStart(code, b + 1))
  }

  /** The number of the program point before instruction `k` of block `b`. */
  function PointNum(code: Code, b: nat, k: nat): nat
    requires b < |code| && k <= |code[b].insts|
  {
    BlockStart(code, b) + LIVE_NUM_STEP * NonPhis(code[b].insts[..k])
  }

  /** The number of an instruction: phis share the number of their block's start. */
  function LiveNum(code: Code, b: nat, k: nat): nat
    requires b < |code| && k < |code[b].insts|
  {
    if code[b].insts[k].kind.Phi? then BlockStart(code, b) else PointNum(code, b, k + 1)
  }

  // ----- live sets -----

  function PhiIds(insts: seq<Inst>): set<nat> {
    set i | i in insts && i.kind.Phi? :: i.id
  }

  /** What the phis of `insts` read when control comes from block `pred`. */
  function PhiReads(insts: seq<Inst>, pred: nat): set<nat> {
    set i, e | i in insts && i.kind.Phi? && e in i.entries && e.bb == pred :: e.val
  }

  /** Live at the end of block `b`, from the first `n` successors. Only successors after `b` (processed
      before it) and `b` itself have a live set by now. */
  function OutOf(code: Code, b: nat, n: nat): set<nat>
    requires ValidCode(code) && b < |code| && n <= |code[b].succs|
    decreases |code| - b, 1, n
  {
    if n == 0 then {}
    else
      var s := code[b].succs[n - 1];
      var rest := OutOf(code, b, n - 1);
      if s > b then rest + LiveIn(code, s) + PhiReads(code[s].insts, b)
      else if s == b then rest + PhiReads(code[s].insts, b)
      else rest
  }

  function LiveOut(code: Code, b: nat): set<nat>
    requires ValidCode(code) && b < |code|
    decreases |code| - b, 1, |code[b].succs| + 1
  {
    OutOf(code, b, |code[b].succs|)
  }

  /** Live before instruction `k` of block `b`. */
  function LiveAt(code: Code, b: nat, k: nat): set<nat>
    requires ValidCode(code) && b < |code| && k <= |code[b].insts|
    decreases |code| - b, 2, |code[b].insts| - k
  {
    if k == |code[b].insts| then LiveOut(code, b)
    else
      var i, after := code[b].insts[k], LiveAt(code, b, k + 1);
      if i.kind.Phi? then after else after - {i.id} + (set v | v in i.Operands())
  }

  /** The live set kept for block `b`. */
  function LiveIn(code: Code, b: nat): set<nat>
    requires ValidCode(code) && b < |code|
    decreases |code| - b, 3
  {
    LiveAt(code, b, 0) - PhiIds(code[b].insts)
  }

  // ----- intervals -----

  function Joined(r: Ranges, v: nat, rg: Range): Range {
    if v !in r then rg
    else Range(if rg.start < r[v].start then rg.start else r[v].start,
               if rg.end > r[v].end then rg.end else r[v].end)
  }

  /** Every value of `vs` is live over `rg`. */
  function Widen(r: Ranges, vs: set<nat>, rg: Range): Ranges {
    map v | v in r.Keys + vs :: if v in vs then Joined(r, v, rg) else r[v]
  }

  /** The operands of an instruction, one after the other, are live up to it. */
  function UpdateAll(r: Ranges, vs: seq<nat>, rg: Range): Ranges {
    if vs == [] then r
    else
      var before := UpdateAll(r, vs[..|vs| - 1], rg);
      before[vs[|vs| - 1] := Joined(before, vs[|vs| - 1], rg)]
  }

  /** The interval of a value starts where it is defined. */
  function Define(r: Ranges, v: nat, num: nat): Ranges {
    r[v := Range(num, if v in r then r[v].end else num + LIVE_NUM_STEP)]
  }

  /** The intervals once the pass has gone back to before instruction `k` of block `b`. */
  function RangesAt(code: Code, b: nat, k: nat): Ranges
    requires ValidCode(code) && b < |code| && k <= |code[b].insts|
    decreases |code| - b, 0, |code[b].insts| - k
  {
    if k == |code[b].insts| then Widen(RangesFrom(code, b + 1), LiveOut(code, b), BlockRange(code, b))
    else
      var i, after, num := code[b].insts[k], RangesAt(code, b, k + 1), LiveNum(code, b, k);
      if i.kind.Phi? then after
      else UpdateAll(Define(after, i.id, num), i.Operands(), Range(BlockStart(code, b), num))
  }

  /** The intervals once block `b` and every later block have been processed. */
  function RangesFrom(code: Code, b: nat): Ranges
    requires ValidCode(code) && b <= |code|
    decreases |code| - b, 1
  {
    if b == |code| then map[]
    else if IsHeader(code, b) then
      Widen(RangesAt(code, b, 0), LiveIn(code, b),
            Range(BlockStart(code, b), BlockStart(code, code[b].loop.last + 1)))
    else RangesAt(code, b, 0)
  }

  /** Instructions without a result. */
  function NoValue(code: Code): set<nat> {
    set b, i | 0 <= b < |code| && i in code[b].insts && !i.ProducesValue() :: i.id
  }

  /** The final intervals: those of instructions without a result are cut to nothing. */
  function Intervals(code: Code): Ranges
    requires ValidCode(code)
  {
    var r := RangesFrom(code, 0);
    map v | v in r :: if v in NoValue(code) then Range(r[v].start, r[v].start) else r[v]
  }
}
