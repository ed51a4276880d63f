/** What the pass promises, in terms of inputs, kinds and phi entries only. */
module LivenessLaws {
  import opened Ir
  import opened Liveness
  import opened LivenessProofs
  import opened IntervalProofs

  // ----- reads -----

  /** Every input of an instruction other than a phi is live before it, and its interval reaches it. */
  lemma InputsAreLive(code: Code, defs: map<nat, Point>, b: nat, k: nat, v: nat)
    requires ValidCode(code) && Ssa(code, defs) && b < |code| && k < |code[b].insts|
    requires !code[b].insts[k].kind.Phi? && v in code[b].insts[k].inputs
    ensures v in LiveAt(code, b, k)
    ensures v in Intervals(code) && LiveNum(code, b, k) <= Intervals(code)[v].end
  {
    var p := Point(b, k);
    ReadIsForwardLive(code, v, p);
    LiveAtIffForwardLive(code, p, v);
    ReadNeedIsMet(code, v, p);
    PointNumStep(code, b, k);
    assert ReadAt(code, v, p);
    ProducerKeepsInterval(code, defs, v);
  }

  /** What a phi of a block takes when control comes from `b`, which is not later, is live at the end of `b`, and its
      interval reaches the end. */
  lemma EntriesAreLive(code: Code, defs: map<nat, Point>, b: nat, s: nat, k: nat, n: nat)
    requires ValidCode(code) && Ssa(code, defs) && b <= s < |code| && s in code[b].succs
    requires k < |code[s].insts| && code[s].insts[k].kind.Phi? && n < |code[s].insts[k].entries|
    requires code[s].insts[k].entries[n].bb == b
    ensures var v := code[s].insts[k].entries[n].val;
            && v in LiveOut(code, b)
            && v in Intervals(code) && BlockStart(code, b + 1) <= Intervals(code)[v].end
  {
    var v, p := code[s].insts[k].entries[n].val, Point(b, |code[b].insts|);
    assert code[s].insts[k].entries[n] == PhiEntry(v, b);
    assert PhiTakes(code[s].insts, b, v);
    assert ReadOnExit(code, v, b, s);
    ReadIsForwardLive(code, v, p);
    LiveAtIffForwardLive(code, p, v);
    ReadNeedIsMet(code, v, p);
    PointNumLast(code, b);
    assert ReadAt(code, v, p);
    ProducerKeepsInterval(code, defs, v);
  }

  // ----- results -----

  /** Control flow has no result. */
  predicate OnlyControls(kind: InstType) {
    kind.If? || kind.Jump? || kind.Ret?
  }

  lemma ControlHasNoValue(code: Code, defs: map<nat, Point>, b: nat, k: nat)
    requires Ssa(code, defs) && b < |code| && k < |code[b].insts|
    ensures code[b].insts[k].id in NoValue(code) <==> OnlyControls(code[b].insts[k].kind)
  {
    var i := code[b].insts[k];
    assert i in code[b].insts;
    if i.id in NoValue(code) {
      var c, j :| 0 <= c < |code| && j in code[c].insts && !j.ProducesValue() && j.id == i.id;
      var n :| 0 <= n < |code[c].insts| && code[c].insts[n] == j;
      assert Point(c, n) == Point(b, k);
    }
  }

  /** The interval of an instruction that is no phi is empty exactly for control flow. */
  lemma EmptyIsControl(code: Code, defs: map<nat, Point>, b: nat, k: nat)
    requires ValidCode(code) && LoopsContiguous(code) && Ssa(code, defs) && b < |code| && k < |code[b].insts|
    requires !code[b].insts[k].kind.Phi?
    ensures var v := code[b].insts[k].id;
            v in Intervals(code) && (Intervals(code)[v].Empty() <==> OnlyControls(code[b].insts[k].kind))
  {
    var v := code[b].insts[k].id;
    DefNeedIsMet(code, Point(b, k));
    ControlHasNoValue(code, defs, b, k);
    FromStarts(code, defs, 0, v);
  }

  // ----- the intervals -----

  ghost predicate IsNeeded(code: Code, defs: map<nat, Point>, v: nat)
    requires ValidCode(code) && Ssa(code, defs)
  {
    exists end: nat :: NeededTo(code, defs, v, end)
  }

  /** A value has an interval exactly if something needs it; it starts at the definition and ends at the last need. */
  lemma IntervalIsExact(code: Code, defs: map<nat, Point>, v: nat)
    requires ValidCode(code) && LoopsContiguous(code) && Ssa(code, defs)
    requires v in defs && !OnlyControls(code[defs[v].b].insts[defs[v].k].kind)
    ensures v in Intervals(code) <==> IsNeeded(code, defs, v)
    ensures v in Intervals(code) ==>
        && Intervals(code)[v].start == DefNum(code, defs[v]) && NeededTo(code, defs, v, Intervals(code)[v].end)
        && forall end: nat :: NeededTo(code, defs, v, end) ==> end <= Intervals(code)[v].end
  {
    ControlHasNoValue(code, defs, defs[v].b, defs[v].k);
    if v in Intervals(code) {
      IntervalStartsAtDef(code, defs, v);
      IntervalEndIsNeeded(code, defs, v);
    }
    forall end: nat | NeededTo(code, defs, v, end)
      ensures v in RangesFrom(code, 0) && end <= RangesFrom(code, 0)[v].end
    {
      NeedIsMet(code, defs, v, end);
    }
  }

  // ----- the numbers -----

  ghost predicate OnlyPhis(insts: seq<Inst>, from: nat, to: nat) {
    forall k :: from <= k < to && k < |insts| ==> insts[k].kind.Phi?
  }

  lemma {:induction false} PhisHaveNoRoom(code: Code, b: nat, from: nat, to: nat)
    requires b < |code| && from <= to <= |code[b].insts| && OnlyPhis(code[b].insts, from, to)
    ensures PointNum(code, b, to) == PointNum(code, b, from)
  {
    if from < to {
      PhisHaveNoRoom(code, b, from, to - 1);
      PointNumStep(code, b, to - 1);
    }
  }

  /** Numbers: phis have that of their block's start; the first other instruction of a block is two behind the start,
      every further one two behind the one before, and the next block starts two behind the last. */
  lemma NumbersByTwos(code: Code, b: nat, j: nat, k: nat)
    requires b < |code| && j <= k < |code[b].insts| && !code[b].insts[k].kind.Phi?
    ensures BlockStart(code, 0) == 0
    ensures code[b].insts[j].kind.Phi? ==> LiveNum(code, b, j) == BlockStart(code, b)
    ensures OnlyPhis(code[b].insts, 0, k) ==> LiveNum(code, b, k) == BlockStart(code, b) + 2
    ensures j < k && !code[b].insts[j].kind.Phi? && OnlyPhis(code[b].insts, j + 1, k) ==>
        LiveNum(code, b, k) == LiveNum(code, b, j) + 2
    ensures OnlyPhis(code[b].insts, k + 1, |code[b].insts|) ==> BlockStart(code, b + 1) == LiveNum(code, b, k) + 2
  {
    PointNumStep(code, b, k);
    PointNumLast(code, b);
    assert code[b].insts[..0] == [];
    if OnlyPhis(code[b].insts, 0, k) {
      PhisHaveNoRoom(code, b, 0, k);
    }
    if j < k && !code[b].insts[j].kind.Phi? && OnlyPhis(code[b].insts, j + 1, k) {
      PhisHaveNoRoom(code, b, j + 1, k);
    }
    if OnlyPhis(code[b].insts, k + 1, |code[b].insts|) {
      PhisHaveNoRoom(code, b, k + 1, |code[b].insts|);
    }
  }
}
