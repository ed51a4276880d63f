/** The computed intervals cover path-based liveness and start exactly at the definition. */
module IntervalProofs {
  import opened Graphs
  import opened Ir
  import opened LinearScan
  import opened Liveness
  import opened LivenessProofs

  // ----- intervals only grow at the end -----

  /** Every interval of `r` is there in `r'`, and ends no earlier. */
  ghost predicate Grows(r: Ranges, r': Ranges) {
    forall v :: v in r ==> v in r' && r[v].end <= r'[v].end
  }

  lemma {:induction false} UpdateAllIs(r: Ranges, vs: seq<nat>, rg: Range)
    ensures forall v :: v in UpdateAll(r, vs, rg) <==> v in r || v in vs
    ensures forall v :: v in UpdateAll(r, vs, rg) ==>
        UpdateAll(r, vs, rg)[v] == if v in vs then Joined(r, v, rg) else r[v]
  {
    if vs != [] {
      UpdateAllIs(r, vs[..|vs| - 1], rg);
      assert vs == vs[..|vs| - 1] + [vs[|vs| - 1]];
    }
  }

  /** Going back over one instruction. */
  lemma StepBackGrows(code: Code, b: nat, k: nat)
    requires ValidCode(code) && b < |code| && k < |code[b].insts|
    ensures Grows(RangesAt(code, b, k + 1), RangesAt(code, b, k))
  {
    var i, after, num := code[b].insts[k], RangesAt(code, b, k + 1), LiveNum(code, b, k);
    if !i.kind.Phi? {
      UpdateAllIs(Define(after, i.id, num), i.Operands(), Range(BlockStart(code, b), num));
    }
  }

  lemma {:induction false} BlockGrows(code: Code, b: nat, k: nat)
    requires ValidCode(code) && b < |code| && k <= |code[b].insts|
    ensures Grows(RangesFrom(code, b + 1), RangesAt(code, b, k))
    decreases |code[b].insts| - k
  {
    if k < |code[b].insts| {
      BlockGrows(code, b, k + 1);
      StepBackGrows(code, b, k);
    }
  }

  lemma {:induction false} RestGrows(code: Code, b: nat, k: nat)
    requires ValidCode(code) && b < |code| && k <= |code[b].insts|
    ensures Grows(RangesAt(code, b, k), RangesFrom(code, b))
    decreases k
  {
    if k > 0 {
      StepBackGrows(code, b, k - 1);
      RestGrows(code, b, k - 1);
    }
  }

  lemma {:induction false} FromGrows(code: Code, b: nat)
    requires ValidCode(code) && b <= |code|
    ensures Grows(RangesFrom(code, b), RangesFrom(code, 0))
  {
    if b > 0 {
      BlockGrows(code, b - 1, 0);
      RestGrows(code, b - 1, 0);
      FromGrows(code, b - 1);
    }
  }

  /** The number after the window of the point before instruction `k`. */
  function PointEnd(code: Code, b: nat, k: nat): nat
    requires b < |code| && k <= |code[b].insts|
  {
    PointNum(code, b, k) + LIVE_NUM_STEP
  }

  lemma PointNumStep(code: Code, b: nat, k: nat)
    requires b < |code| && k < |code[b].insts|
    ensures PointNum(code, b, k + 1)
         == PointNum(code, b, k) + if code[b].insts[k].kind.Phi? then 0 else LIVE_NUM_STEP
  {
    assert code[b].insts[..k + 1][..k] == code[b].insts[..k];
  }

  lemma PointNumLast(code: Code, b: nat)
    requires b < |code|
    ensures PointEnd(code, b, |code[b].insts|) == BlockStart(code, b + 1)
  {
    assert code[b].insts[..|code[b].insts|] == code[b].insts;
  }

  /** The interval of a value in a live set reaches beyond the point. */
  lemma {:induction false} LiveAtReaches(code: Code, b: nat, k: nat, v: nat)
    requires ValidCode(code) && b < |code| && k <= |code[b].insts| && v in LiveAt(code, b, k)
    ensures v in RangesAt(code, b, k) && PointEnd(code, b, k) <= RangesAt(code, b, k)[v].end
    decreases |code[b].insts| - k
  {
    if k == |code[b].insts| {
      PointNumLast(code, b);
    } else {
      var i, after, num := code[b].insts[k], RangesAt(code, b, k + 1), LiveNum(code, b, k);
      PointNumStep(code, b, k);
      StepBackGrows(code, b, k);
      if v in i.Operands() {
        UpdateAllIs(Define(after, i.id, num), i.Operands(), Range(BlockStart(code, b), num));
      } else {
        LiveAtReaches(code, b, k + 1, v);
      }
    }
  }

  lemma {:induction false} BlockStartGrows(code: Code, a: nat, b: nat)
    requires a <= b <= |code|
    ensures BlockStart(code, a) <= BlockStart(code, b)
    ensures a < b ==> BlockStart(code, a + 1) <= BlockStart(code, b)
    decreases b - a
  {
    if a < b {
      BlockStartGrows(code, a, b - 1);
    }
  }

  lemma {:induction false} PointInBlock(code: Code, b: nat, k: nat)
    requires b < |code| && k <= |code[b].insts|
    ensures BlockStart(code, b) <= PointNum(code, b, k) && PointEnd(code, b, k) <= BlockStart(code, b + 1)
    decreases |code[b].insts| - k
  {
    if k == |code[b].insts| {
      PointNumLast(code, b);
    } else {
      PointNumStep(code, b, k);
      PointInBlock(code, b, k + 1);
    }
  }

  /** A value live at the header of a loop is kept live up to the end of the loop's run. */
  lemma CarriedReaches(code: Code, v: nat, h: nat, b: nat)
    requires ValidCode(code) && CarriedBy(code, v, h, b)
    ensures v in RangesFrom(code, h) && BlockStart(code, b + 1) <= RangesFrom(code, h)[v].end
  {
    assert v in LiveIn(code, h) by {
      LiveAtIffForwardLive(code, Point(h, 0), v);
      PhiIdsAre(code[h].insts, v);
    }
    BlockStartGrows(code, b + 1, code[h].loop.last + 1);
    HeaderWidens(code, v, h);
  }

  lemma HeaderWidens(code: Code, v: nat, h: nat)
    requires ValidCode(code) && h < |code| && IsHeader(code, h) && v in LiveIn(code, h)
    ensures v in RangesFrom(code, h)
    ensures BlockStart(code, code[h].loop.last + 1) <= RangesFrom(code, h)[v].end
  {
  }

  /** The final interval of a live value reaches beyond the point. */
  lemma LiveReaches(code: Code, v: nat, p: Point)
    requires ValidCode(code) && LoopsContiguous(code) && Live(code, v, p)
    ensures IsPoint(code, p)
    ensures v in RangesFrom(code, 0) && PointEnd(code, p.b, p.k) <= RangesFrom(code, 0)[v].end
  {
    var path :| LivePath(code, v, path) && path[0] == p;
    assert IsPoint(code, p);
    var h := LiveIsCarried(code, v, path);
    if ForwardLive(code, v, p) {
      LiveAtIffForwardLive(code, p, v);
      LiveAtReaches(code, p.b, p.k, v);
      RestGrows(code, p.b, p.k);
      FromGrows(code, p.b);
    } else {
      CarriedReaches(code, v, h, p.b);
      FromGrows(code, h);
      PointInBlock(code, p.b, p.k);
    }
  }

  // ----- intervals start at the definition -----

  /** Where the interval of the value defined at `d` has to start. */
  function DefNum(code: Code, d: Point): nat
    requires d.b < |code| && d.k < |code[d.b].insts|
  {
    LiveNum(code, d.b, d.k)
  }

  /** The state of one interval once the pass has gone back to `(b, k)`: it starts at the definition when
      that lies behind (for a phi: in this block or later); otherwise it is there because of a read in
      this block or later, and starts no earlier than the block. */
  ghost predicate StartsRight(code: Code, d: Point, b: nat, k: nat, v: nat, rg: Range)
    requires IsDef(code, d) && b <= |code|
  {
    if d.b > b || (d.b == b && (code[d.b].insts[d.k].kind.Phi? || d.k >= k)) then rg.start == DefNum(code, d)
    else BlockStart(code, b) <= rg.start && exists p: Point :: ForwardLive(code, v, p) && p.b >= b
  }

  /** A value read in a later block than its definition is live at the end of the defining block. */
  lemma LiveOutOfDef(code: Code, defs: map<nat, Point>, v: nat, p: Point)
    requires ValidCode(code) && LoopsContiguous(code) && Ssa(code, defs) && ForwardLive(code, v, p)
    requires v in defs && defs[v].b != p.b
    ensures v in LiveOut(code, defs[v].b)
  {
    ForwardLiveAfterDef(code, defs, v, p);
    var up := AscendingTo(code, p.b);
    BackToBlockStart(code, defs, v, p);
    BackAlong(code, defs, v, up);
    LiveAtIffForwardLive(code, Point(defs[v].b, |code[defs[v].b].insts|), v);
  }

  lemma {:induction false} BackToBlockStart(code: Code, defs: map<nat, Point>, v: nat, p: Point)
    requires Ssa(code, defs) && ForwardLive(code, v, p) && v in defs && defs[v].b != p.b && IsPoint(code, p)
    ensures ForwardLive(code, v, Point(p.b, 0))
    decreases p.k
  {
    if p.k > 0 {
      var q := Point(p.b, p.k - 1);
      ExtendForward(code, v, q, p);
      BackToBlockStart(code, defs, v, q);
    }
  }

  lemma {:induction false} BackAlong(code: Code, defs: map<nat, Point>, v: nat, up: seq<nat>)
    requires Ssa(code, defs) && v in defs && IsPath(Cfg(code), up) && Ascending(up)
    requires defs[v].b in up && defs[v].b != up[|up| - 1] && ForwardLive(code, v, Point(up[|up| - 1], 0))
    ensures ForwardLive(code, v, Point(defs[v].b, |code[defs[v].b].insts|))
    decreases |up|
  {
    var init, s := up[..|up| - 1], up[|up| - 1];
    assert up == init + [s];
    assert IsPath(Cfg(code), init) && init[|init| - 1] == up[|up| - 2];
    var a := up[|up| - 2];
    ExtendForward(code, v, Point(a, |code[a].insts|), Point(s, 0));
    if defs[v].b != a {
      BackToBlockStart(code, defs, v, Point(a, |code[a].insts|));
      BackAlong(code, defs, v, init);
    }
  }

  /** The state of one value: absent, or with a right start. */
  ghost predicate StartRight(code: Code, defs: map<nat, Point>, b: nat, k: nat, r: Ranges, v: nat)
    requires Ssa(code, defs) && b <= |code|
  {
    v in r ==> v in defs && StartsRight(code, defs[v], b, k, v, r[v])
  }

  lemma LiveOutStarts(code: Code, defs: map<nat, Point>, b: nat, v: nat)
    requires ValidCode(code) && LoopsContiguous(code) && Ssa(code, defs) && b < |code|
    requires StartRight(code, defs, b + 1, 0, RangesFrom(code, b + 1), v)
    ensures StartRight(code, defs, b, |code[b].insts|, RangesAt(code, b, |code[b].insts|), v)
  {
    var r, p := RangesFrom(code, b + 1), Point(b, |code[b].insts|);
    if v in LiveOut(code, b) {
      LiveAtIffForwardLive(code, p, v);
      ForwardLiveAfterDef(code, defs, v, p);
    } else if v in r && defs[v].b <= b {
      var q: Point :| ForwardLive(code, v, q) && q.b >= b + 1;
      if defs[v].b == b {
        LiveOutOfDef(code, defs, v, q);
      }
    }
  }

  lemma InstStarts(code: Code, defs: map<nat, Point>, b: nat, k: nat, v: nat)
    requires ValidCode(code) && LoopsContiguous(code) && Ssa(code, defs) && b < |code| && k < |code[b].insts|
    requires StartRight(code, defs, b, k + 1, RangesAt(code, b, k + 1), v)
    ensures StartRight(code, defs, b, k, RangesAt(code, b, k), v)
  {
    var i, after, num := code[b].insts[k], RangesAt(code, b, k + 1), LiveNum(code, b, k);
    if !i.kind.Phi? {
      UpdateAllIs(Define(after, i.id, num), i.Operands(), Range(BlockStart(code, b), num));
      if v in i.Operands() {
        var p := Point(b, k);
        ReadIsForwardLive(code, v, p);
        ForwardLiveAfterDef(code, defs, v, p);
      }
    }
  }

  lemma HeaderStarts(code: Code, defs: map<nat, Point>, b: nat, v: nat)
    requires ValidCode(code) && LoopsContiguous(code) && Ssa(code, defs) && b < |code|
    requires StartRight(code, defs, b, 0, RangesAt(code, b, 0), v)
    ensures StartRight(code, defs, b, 0, RangesFrom(code, b), v)
  {
    if IsHeader(code, b) && v in LiveIn(code, b) {
      var p := Point(b, 0);
      LiveAtIffForwardLive(code, p, v);
      ForwardLiveAfterDef(code, defs, v, p);
    }
  }

  lemma {:induction false} BlockStarts(code: Code, defs: map<nat, Point>, b: nat, k: nat, v: nat)
    requires ValidCode(code) && LoopsContiguous(code) && Ssa(code, defs) && b < |code| && k <= |code[b].insts|
    ensures StartRight(code, defs, b, k, RangesAt(code, b, k), v)
    decreases |code| - b, 0, |code[b].insts| - k
  {
    if k == |code[b].insts| {
      FromStarts(code, defs, b + 1, v);
      LiveOutStarts(code, defs, b, v);
    } else {
      BlockStarts(code, defs, b, k + 1, v);
      InstStarts(code, defs, b, k, v);
    }
  }

  lemma {:induction false} FromStarts(code: Code, defs: map<nat, Point>, b: nat, v: nat)
    requires ValidCode(code) && LoopsContiguous(code) && Ssa(code, defs) && b <= |code|
    ensures StartRight(code, defs, b, 0, RangesFrom(code, b), v)
    decreases |code| - b, 1
  {
    if b < |code| {
      BlockStarts(code, defs, b, 0, v);
      HeaderStarts(code, defs, b, v);
    }
  }

  // ----- the pass never throws: starts never pass ends -----

  /** Every interval is well formed and ends no earlier than `num`. */
  ghost predicate EndsFrom(r: Ranges, num: nat) {
    forall v :: v in r ==> r[v].start <= r[v].end && num <= r[v].end
  }

  lemma UpdateAllEndsFrom(r: Ranges, vs: seq<nat>, rg: Range, num: nat)
    requires EndsFrom(r, num) && rg.start <= rg.end && num <= rg.end
    ensures EndsFrom(UpdateAll(r, vs, rg), num)
  {
    UpdateAllIs(r, vs, rg);
  }

  lemma WidenEndsFrom(r: Ranges, vs: set<nat>, rg: Range, num: nat)
    requires EndsFrom(r, num) && rg.start <= rg.end && num <= rg.end
    ensures EndsFrom(Widen(r, vs, rg), num)
  {
  }

  lemma {:induction false} RangesEndLate(code: Code, b: nat, k: nat)
    requires ValidCode(code) && b < |code| && k <= |code[b].insts|
    ensures EndsFrom(RangesAt(code, b, k), PointEnd(code, b, k))
    decreases |code| - b, 0, |code[b].insts| - k
  {
    PointInBlock(code, b, k);
    if k == |code[b].insts| {
      FromEndLate(code, b + 1);
      PointNumLast(code, b);
      WidenEndsFrom(RangesFrom(code, b + 1), LiveOut(code, b), BlockRange(code, b), PointEnd(code, b, k));
    } else {
      RangesEndLate(code, b, k + 1);
      PointNumStep(code, b, k);
      var i, after, num := code[b].insts[k], RangesAt(code, b, k + 1), LiveNum(code, b, k);
      if !i.kind.Phi? {
        UpdateAllEndsFrom(Define(after, i.id, num), i.Operands(), Range(BlockStart(code, b), num), num);
      }
    }
  }

  lemma {:induction false} FromEndLate(code: Code, b: nat)
    requires ValidCode(code) && b <= |code|
    ensures EndsFrom(RangesFrom(code, b), BlockStart(code, b) + LIVE_NUM_STEP)
    decreases |code| - b, 1
  {
    if b < |code| {
      RangesEndLate(code, b, 0);
      if IsHeader(code, b) {
        var start, end := BlockStart(code, b), BlockStart(code, code[b].loop.last + 1);
        PointInBlock(code, b, 0);
        BlockStartGrows(code, b + 1, code[b].loop.last + 1);
        WidenEndsFrom(RangesAt(code, b, 0), LiveIn(code, b), Range(start, end), start + LIVE_NUM_STEP);
      }
    }
  }

  /** When the pass reaches a definition, moving the start of its interval there keeps the interval
      well formed: the check in the setter never fails. */
  lemma DefinitionFits(code: Code, b: nat, k: nat)
    requires ValidCode(code) && b < |code| && k < |code[b].insts| && !code[b].insts[k].kind.Phi?
    ensures var after, v := RangesAt(code, b, k + 1), code[b].insts[k].id;
            v in after ==> LiveNum(code, b, k) < after[v].end
  {
    RangesEndLate(code, b, k + 1);
  }

  // ----- the results -----

  /** The interval of a value holds the window of the point `p`. */
  ghost predicate CoversPoint(code: Code, r: Ranges, v: nat, p: Point)
    requires IsPoint(code, p)
  {
    v in r && r[v].start <= PointNum(code, p.b, p.k) && PointEnd(code, p.b, p.k) <= r[v].end
  }

  /** Live intervals are sound: wherever a value is live, its interval covers the point. */
  lemma LiveIsCovered(code: Code, defs: map<nat, Point>, v: nat, p: Point)
    requires ValidCode(code) && LoopsContiguous(code) && Ssa(code, defs) && Live(code, v, p)
    ensures IsPoint(code, p) && CoversPoint(code, Intervals(code), v, p)
  {
    LiveReaches(code, v, p);
    LiveHasDef(code, defs, v, p);
    FromStarts(code, defs, 0, v);
    DefNumBefore(code, defs[v], p);
    ProducerKeepsInterval(code, defs, v);
  }

  /** Where a value is live its definition has happened, in SSA order and in the block order. */
  lemma LiveHasDef(code: Code, defs: map<nat, Point>, v: nat, p: Point)
    requires ValidCode(code) && LoopsContiguous(code) && Ssa(code, defs) && Live(code, v, p)
    ensures IsPoint(code, p) && v in defs && DefBefore(code, defs[v], p) && defs[v].b <= p.b
    ensures code[defs[v].b].insts[defs[v].k].ProducesValue()
  {
    var path :| LivePath(code, v, path) && path[0] == p;
    assert IsPoint(code, p);
    LiveAfterDef(code, defs, v, path);
    LiveIsRead(code, v, path);
    if defs[v].b != p.b {
      DominatorIsEarlier(code, defs[v].b, p.b);
    }
  }

  lemma {:induction false} LiveIsRead(code: Code, v: nat, path: seq<Point>)
    requires LivePath(code, v, path)
    ensures exists q :: ReadAt(code, v, q)
  {
    if |path| > 1 {
      LiveIsRead(code, v, path[1..]);
    }
  }

  lemma DefNumBefore(code: Code, d: Point, p: Point)
    requires IsDef(code, d) && IsPoint(code, p) && d.b <= p.b && DefBefore(code, d, p)
    ensures DefNum(code, d) <= PointNum(code, p.b, p.k)
  {
    PointInBlock(code, p.b, p.k);
    if d.b < p.b {
      PointInBlock(code, d.b, d.k + 1);
      PointInBlock(code, d.b, d.k);
      BlockStartGrows(code, d.b, p.b);
    } else if !code[d.b].insts[d.k].kind.Phi? {
      PointNumGrows(code, p.b, d.k + 1, p.k);
    }
  }

  lemma {:induction false} PointNumGrows(code: Code, b: nat, j: nat, k: nat)
    requires b < |code| && j <= k <= |code[b].insts|
    ensures PointNum(code, b, j) <= PointNum(code, b, k)
  {
    if j < k {
      PointNumStep(code, b, k - 1);
      PointNumGrows(code, b, j, k - 1);
    }
  }

  lemma ProducerKeepsInterval(code: Code, defs: map<nat, Point>, v: nat)
    requires ValidCode(code) && Ssa(code, defs) && v in defs && v in RangesFrom(code, 0)
    requires code[defs[v].b].insts[defs[v].k].ProducesValue()
    ensures v in Intervals(code) && Intervals(code)[v] == RangesFrom(code, 0)[v]
  {
    assert v !in NoValue(code);
  }

  /** Every interval starts exactly at its definition: at the instruction, or for a phi at its block. */
  lemma IntervalStartsAtDef(code: Code, defs: map<nat, Point>, v: nat)
    requires ValidCode(code) && LoopsContiguous(code) && Ssa(code, defs) && v in Intervals(code)
    ensures v in defs && Intervals(code)[v].start == DefNum(code, defs[v])
  {
    FromStarts(code, defs, 0, v);
  }

  /** A value that has just been defined occupies the window behind its definition, even if unused. */
  lemma DefinitionIsCovered(code: Code, defs: map<nat, Point>, b: nat, k: nat)
    requires ValidCode(code) && LoopsContiguous(code) && Ssa(code, defs)
    requires b < |code| && k < |code[b].insts|
    requires !code[b].insts[k].kind.Phi? && code[b].insts[k].ProducesValue()
    ensures CoversPoint(code, Intervals(code), code[b].insts[k].id, Point(b, k + 1))
  {
    var i := code[b].insts[k];
    DefNeedIsMet(code, Point(b, k));
    FromStarts(code, defs, 0, i.id);
    ProducerKeepsInterval(code, defs, i.id);
  }

  // ----- intervals are no longer than needed -----

  ghost predicate IsPhi(code: Code, d: Point)
    requires IsDef(code, d)
  {
    code[d.b].insts[d.k].kind.Phi?
  }

  /** Something needs `v` up to `end`: its own definition, a read further on, or a loop it is live in. */
  ghost predicate NeededTo(code: Code, defs: map<nat, Point>, v: nat, end: nat)
    requires ValidCode(code) && Ssa(code, defs)
  {
    || (v in defs && !IsPhi(code, defs[v]) && end == DefNum(code, defs[v]) + LIVE_NUM_STEP)
    || (exists p: Point :: ForwardLive(code, v, p) && IsPoint(code, p) && end == PointEnd(code, p.b, p.k))
    || (exists h: nat :: h < |code| && KeptOver(code, v, h) && end == BlockStart(code, code[h].loop.last + 1))
  }

  /** `h` heads a reducible loop, and `v` is read further on from it. */
  ghost predicate KeptOver(code: Code, v: nat, h: nat)
    requires h < |code|
  {
    && code[h].loop.header == h && code[h].loop.reducible
    && ForwardLive(code, v, Point(h, 0)) && !HasPhi(code[h].insts, v)
  }

  lemma KeptIsLiveIn(code: Code, v: nat, h: nat)
    requires ValidCode(code) && h < |code|
    ensures KeptOver(code, v, h) <==> IsHeader(code, h) && v in LiveIn(code, h)
  {
    LiveAtIffForwardLive(code, Point(h, 0), v);
    PhiIdsAre(code[h].insts, v);
  }

  ghost predicate EndsNeeded(code: Code, defs: map<nat, Point>, r: Ranges)
    requires ValidCode(code) && Ssa(code, defs)
  {
    forall v :: v in r ==> NeededTo(code, defs, v, r[v].end)
  }

  lemma UpdateAllNeeded(code: Code, defs: map<nat, Point>, r: Ranges, vs: seq<nat>, rg: Range)
    requires ValidCode(code) && Ssa(code, defs) && EndsNeeded(code, defs, r)
    requires forall v :: v in vs ==> NeededTo(code, defs, v, rg.end)
    ensures EndsNeeded(code, defs, UpdateAll(r, vs, rg))
  {
    UpdateAllIs(r, vs, rg);
  }

  lemma {:induction false} RangesNeeded(code: Code, defs: map<nat, Point>, b: nat, k: nat)
    requires ValidCode(code) && Ssa(code, defs) && b < |code| && k <= |code[b].insts|
    ensures EndsNeeded(code, defs, RangesAt(code, b, k))
    decreases |code| - b, 0, |code[b].insts| - k
  {
    if k == |code[b].insts| {
      FromNeeded(code, defs, b + 1);
      OutNeeded(code, defs, b);
    } else {
      RangesNeeded(code, defs, b, k + 1);
      InstNeeded(code, defs, b, k);
    }
  }

  lemma LiveOutNeeded(code: Code, defs: map<nat, Point>, b: nat, v: nat)
    requires ValidCode(code) && Ssa(code, defs) && b < |code| && v in LiveOut(code, b)
    ensures NeededTo(code, defs, v, BlockStart(code, b + 1))
  {
    PointNumLast(code, b);
    LiveAtIffForwardLive(code, Point(b, |code[b].insts|), v);
  }

  lemma OutNeeded(code: Code, defs: map<nat, Point>, b: nat)
    requires ValidCode(code) && Ssa(code, defs) && b < |code| && EndsNeeded(code, defs, RangesFrom(code, b + 1))
    ensures EndsNeeded(code, defs, RangesAt(code, b, |code[b].insts|))
  {
    forall v | v in LiveOut(code, b) ensures NeededTo(code, defs, v, BlockStart(code, b + 1)) {
      LiveOutNeeded(code, defs, b, v);
    }
  }

  lemma InstNeeded(code: Code, defs: map<nat, Point>, b: nat, k: nat)
    requires ValidCode(code) && Ssa(code, defs) && b < |code| && k < |code[b].insts|
    requires EndsNeeded(code, defs, RangesAt(code, b, k + 1))
    ensures EndsNeeded(code, defs, RangesAt(code, b, k))
  {
    PointNumStep(code, b, k);
    var i, after, num := code[b].insts[k], RangesAt(code, b, k + 1), LiveNum(code, b, k);
    if !i.kind.Phi? {
      forall v | v in i.Operands() ensures NeededTo(code, defs, v, num) {
        ReadIsForwardLive(code, v, Point(b, k));
      }
      UpdateAllNeeded(code, defs, Define(after, i.id, num), i.Operands(), Range(BlockStart(code, b), num));
    }
  }

  lemma {:induction false} FromNeeded(code: Code, defs: map<nat, Point>, b: nat)
    requires ValidCode(code) && Ssa(code, defs) && b <= |code|
    ensures EndsNeeded(code, defs, RangesFrom(code, b))
    decreases |code| - b, 1
  {
    if b < |code| {
      RangesNeeded(code, defs, b, 0);
      forall v | IsHeader(code, b) && v in LiveIn(code, b)
        ensures NeededTo(code, defs, v, BlockStart(code, code[b].loop.last + 1))
      {
        KeptIsLiveIn(code, v, b);
      }
    }
  }

  /** Every interval ends where something needs it: it is not longer than the analysis has a reason for. */
  lemma IntervalEndIsNeeded(code: Code, defs: map<nat, Point>, v: nat)
    requires ValidCode(code) && Ssa(code, defs) && v in Intervals(code) && v !in NoValue(code)
    ensures NeededTo(code, defs, v, Intervals(code)[v].end)
  {
    FromNeeded(code, defs, 0);
  }

  // ----- what is missing: phi reads on edges that go back -----

  /** Something the pass does see needs `v` at the end of block `b` or further on. */
  ghost predicate NeededPast(code: Code, defs: map<nat, Point>, v: nat, b: nat)
    requires ValidCode(code) && Ssa(code, defs) && b < |code|
  {
    exists end: nat :: NeededTo(code, defs, v, end) && BlockStart(code, b + 1) <= end
  }

  lemma ReadNeedIsMet(code: Code, v: nat, p: Point)
    requires ValidCode(code) && ForwardLive(code, v, p) && IsPoint(code, p)
    ensures v in RangesFrom(code, 0) && PointEnd(code, p.b, p.k) <= RangesFrom(code, 0)[v].end
  {
    LiveAtIffForwardLive(code, p, v);
    LiveAtReaches(code, p.b, p.k, v);
    RestGrows(code, p.b, p.k);
    FromGrows(code, p.b);
  }

  lemma DefNeedIsMet(code: Code, d: Point)
    requires ValidCode(code) && IsDef(code, d) && !IsPhi(code, d)
    ensures var v := code[d.b].insts[d.k].id;
            v in RangesFrom(code, 0) && DefNum(code, d) + LIVE_NUM_STEP <= RangesFrom(code, 0)[v].end
  {
    var i, num := code[d.b].insts[d.k], DefNum(code, d);
    RangesEndLate(code, d.b, d.k + 1);
    UpdateAllIs(Define(RangesAt(code, d.b, d.k + 1), i.id, num), i.Operands(), Range(BlockStart(code, d.b), num));
    RestGrows(code, d.b, d.k);
    FromGrows(code, d.b);
  }

  lemma NeedIsMet(code: Code, defs: map<nat, Point>, v: nat, end: nat)
    requires ValidCode(code) && Ssa(code, defs) && NeededTo(code, defs, v, end)
    ensures v in RangesFrom(code, 0) && end <= RangesFrom(code, 0)[v].end
  {
    if v in defs && !IsPhi(code, defs[v]) && end == DefNum(code, defs[v]) + LIVE_NUM_STEP {
      DefNeedIsMet(code, defs[v]);
    } else if exists p: Point :: ForwardLive(code, v, p) && IsPoint(code, p) && end == PointEnd(code, p.b, p.k) {
      var p: Point :| ForwardLive(code, v, p) && IsPoint(code, p) && end == PointEnd(code, p.b, p.k);
      ReadNeedIsMet(code, v, p);
    } else {
      var h: nat :| h < |code| && KeptOver(code, v, h) && end == BlockStart(code, code[h].loop.last + 1);
      KeptIsLiveIn(code, v, h);
      FromGrows(code, h);
    }
  }

  /** A phi that reads `v` on an edge going back from `b` needs `v` at the end of `b`, and the pass does
      not see that read. The interval covers the end of `b` exactly when something else needs `v` there
      or further on. */
  lemma BackEdgeReadCovered(code: Code, defs: map<nat, Point>, v: nat, b: nat)
    requires ValidCode(code) && LoopsContiguous(code) && Ssa(code, defs) && b < |code|
    requires v in defs && code[defs[v].b].insts[defs[v].k].ProducesValue()
    requires DefBefore(code, defs[v], Point(b, |code[b].insts|))
    ensures CoversPoint(code, Intervals(code), v, Point(b, |code[b].insts|)) <==> NeededPast(code, defs, v, b)
  {
    var p := Point(b, |code[b].insts|);
    PointNumLast(code, b);
    if CoversPoint(code, Intervals(code), v, p) {
      ProducerKeepsInterval(code, defs, v);
      IntervalEndIsNeeded(code, defs, v);
    }
    if NeededPast(code, defs, v, b) {
      var end: nat :| NeededTo(code, defs, v, end) && BlockStart(code, b + 1) <= end;
      NeedIsMet(code, defs, v, end);
      ProducerKeepsInterval(code, defs, v);
      FromStarts(code, defs, 0, v);
      if defs[v].b != b {
        DominatorIsEarlier(code, defs[v].b, b);
      }
      DefNumBefore(code, defs[v], p);
    }
  }
}
