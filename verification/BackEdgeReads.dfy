/** A loop whose phi reads a value that another one has overwritten by then. */
module BackEdgeReads {
  import opened Graphs
  import opened Ir
  import opened LinearScan
  import opened Liveness
  import opened LivenessSteps
  import opened LivenessProofs
  import opened IntervalProofs
  import opened RegAllocators
  import opened Allocation
  import opened ScanRows

  function Way(): Block {
    Block([Inst(1, Const, [], []), Inst(2, Jump, [], [])], [1], LoopInfo(3, false, 0))
  }

  function Head(): Block {
    Block([Inst(3, Phi, [1, 5], [PhiEntry(1, 0), PhiEntry(5, 2)]), Inst(4, Jump, [], [])], [2], LoopInfo(1, true, 2))
  }

  function Latch(): Block {
    Block([Inst(5, Const, [], []), Inst(6, Const, [], []), Inst(7, Jump, [], [])], [1], LoopInfo(1, true, 2))
  }

  /** The phi 3 at the head of the loop reads 1 on the way in and 5 on the way back; 6 comes after 5 in the block that
      goes back. */
  function RotatingLoop(): Code {
    [Way(), Head(), Latch()]
  }

  ghost predicate Rotates(code: Code) {
    |code| == 3 && code[0] == Way() && code[1] == Head() && code[2] == Latch()
  }

  function Definitions(): map<nat, Point> {
    map[1 := Point(0, 0), 2 := Point(0, 1), 3 := Point(1, 0), 4 := Point(1, 1), 5 := Point(2, 0), 6 := Point(2, 1),
        7 := Point(2, 2)]
  }

  // ----- it is what the analysis expects -----

  lemma LoopIsValid()
    ensures ValidCode(RotatingLoop())
  {
  }

  lemma EachIsDefined()
    ensures var code, defs := RotatingLoop(), Definitions();
            && (forall b, k :: 0 <= b < |code| && 0 <= k < |code[b].insts| ==>
                  code[b].insts[k].id in defs && defs[code[b].insts[k].id] == Point(b, k))
            && (forall v :: v in defs ==> IsDef(code, defs[v]) && code[defs[v].b].insts[defs[v].k].id == v)
  {
  }

  /** The pass sees one read: that of the phi on the way in. */
  lemma OnlyRead(v: nat, p: Point)
    requires ReadAt(RotatingLoop(), v, p)
    ensures p == Point(0, 2) && v == 1
  {
    var code := RotatingLoop();
    if p.k == |code[p.b].insts| {
      var s :| ReadOnExit(code, v, p.b, s);
      HeadReads();
      assert s == 1 || s == 2;
    }
  }

  lemma LoopIsSsa()
    ensures ValidCode(RotatingLoop()) && Ssa(RotatingLoop(), Definitions())
  {
    var code, defs := RotatingLoop(), Definitions();
    LoopIsValid();
    EachIsDefined();
    forall v, p | ReadAt(code, v, p)
      ensures v in defs && DefBefore(code, defs[v], p) && code[defs[v].b].insts[defs[v].k].ProducesValue()
    {
      OnlyRead(v, p);
    }
  }

  lemma HeadDominates(n: nat)
    requires n == 1 || n == 2
    ensures Dominates(Cfg(RotatingLoop()), 0, 1, n)
  {
    var g := Cfg(RotatingLoop());
    forall path | EntryPath(g, 0, path, n) ensures 1 in path {
      if n == 1 {
        assert path[|path| - 1] == 1;
      } else {
        PathEdge(g, path, |path| - 2);
        assert path[|path| - 2] == 1;
      }
    }
  }

  lemma AllReachable(b: nat)
    requires b < 3
    ensures Reachable(Cfg(RotatingLoop()), 0, b)
  {
    var g := Cfg(RotatingLoop());
    assert IsPath(g, [0]) && IsPath(g, [1]) && IsPath(g, [2]);
    Appended(g, [0], [1]);
    Appended(g, [0] + [1], [2]);
    var path := if b == 0 then [0] else if b == 1 then [0] + [1] else [0] + [1] + [2];
    assert EntryPath(g, 0, path, b);
  }

  lemma RunOfHead(h: nat, b: nat)
    requires InRun(RotatingLoop(), h, b)
    ensures h == 1 && (b == 1 || b == 2)
  {
  }

  lemma LoopIsContiguous()
    ensures LoopsContiguous(RotatingLoop())
  {
    var code := RotatingLoop();
    forall h: nat, b: nat | InRun(code, h, b)
      ensures Dominates(Cfg(code), 0, h, b) && (IsHeader(code, b) ==> code[b].loop.last <= code[h].loop.last)
    {
      RunOfHead(h, b);
      HeadDominates(b);
    }
    forall b | 0 <= b < |code| ensures Reachable(Cfg(code), 0, b) {
      AllReachable(b);
    }
  }

  // ----- what the pass makes of it -----

  lemma Counts(code: Code)
    requires Rotates(code)
    ensures NonPhis(code[0].insts[..1]) == 1 && NonPhis(code[0].insts[..2]) == 2
    ensures NonPhis(code[1].insts[..1]) == 0 && NonPhis(code[1].insts[..2]) == 1
    ensures NonPhis(code[2].insts[..1]) == 1 && NonPhis(code[2].insts[..2]) == 2 && NonPhis(code[2].insts[..3]) == 3
  {
    var way, head, latch := code[0].insts, code[1].insts, code[2].insts;
    assert way[..1][..0] == [] && way[..2][..1] == way[..1] && head[..1][..0] == [] && head[..2][..1] == head[..1];
    assert latch[..1][..0] == [] && latch[..2][..1] == latch[..1] && latch[..3][..2] == latch[..2];
  }

  lemma Numbers(code: Code)
    requires Rotates(code)
    ensures BlockStart(code, 0) == 0 && BlockStart(code, 1) == 6 && BlockStart(code, 2) == 10
            && BlockStart(code, 3) == 18
    ensures LiveNum(code, 0, 0) == 2 && LiveNum(code, 0, 1) == 4 && LiveNum(code, 1, 1) == 8
    ensures LiveNum(code, 2, 0) == 12 && LiveNum(code, 2, 1) == 14 && LiveNum(code, 2, 2) == 16
  {
    Counts(code);
    assert code[0].insts[..2] == code[0].insts && code[1].insts[..2] == code[1].insts
           && code[2].insts[..3] == code[2].insts;
    assert BlockStart(code, 0) == 0;
    assert BlockStart(code, 1) == 6;
    assert BlockStart(code, 2) == 10;
  }

  lemma HeadReads()
    ensures var head := Head().insts; PhiReads(head, 0) == {1} && PhiReads(head, 2) == {5} && PhiIds(head) == {3}
  {
    var head := Head().insts;
    var phi := head[0];
    assert phi in head && PhiEntry(1, 0) in phi.entries && PhiEntry(5, 2) in phi.entries;
  }

  lemma LiveSets(code: Code)
    requires Rotates(code) && ValidCode(code)
    ensures LiveOut(code, 2) == {} && LiveOut(code, 1) == {} && LiveIn(code, 1) == {} && LiveOut(code, 0) == {1}
  {
    OutOfOne(code, 2, 1);
    assert LiveBack(code[2].insts, 3, {}) == {} && LiveBack(code[2].insts, 2, {}) == {};
    assert LiveBack(code[2].insts, 1, {}) == {} && LiveBack(code[2].insts, 0, {}) == {};
    LiveInIs(code, 2);
    OutOfOne(code, 1, 2);
    NoPhis(code[2].insts, 1);
    assert LiveBack(code[1].insts, 2, {}) == {} && LiveBack(code[1].insts, 1, {}) == {}
           && LiveBack(code[1].insts, 0, {}) == {};
    LiveInIs(code, 1);
    OutOfOne(code, 0, 1);
    HeadReads();
  }

  function LatchRanges(): Ranges {
    map[7 := Range(16, 18), 6 := Range(14, 16), 5 := Range(12, 14)]
  }

  lemma OverLatch(code: Code)
    requires Rotates(code)
    ensures RangesOver(code, 2, map[], {}) == LatchRanges()
  {
    Numbers(code);
    WidenNone(map[], BlockRange(code, 2));
    assert RangesBack(code, 2, 3, map[]) == map[];
    assert RangesBack(code, 2, 2, map[]) == map[7 := Range(16, 18)];
    assert RangesBack(code, 2, 1, map[]) == map[7 := Range(16, 18), 6 := Range(14, 16)];
  }

  lemma OverHead(code: Code, r: Ranges)
    requires Rotates(code) && 4 !in r
    ensures Widen(RangesOver(code, 1, r, {}), {}, Range(BlockStart(code, 1), BlockStart(code, 3)))
         == r[4 := Range(8, 10)]
  {
    Numbers(code);
    WidenNone(r, BlockRange(code, 1));
    assert RangesBack(code, 1, 2, r) == r && RangesBack(code, 1, 1, r) == r[4 := Range(8, 10)];
    WidenNone(r[4 := Range(8, 10)], Range(BlockStart(code, 1), BlockStart(code, 3)));
  }

  lemma OverWay(code: Code, r: Ranges)
    requires Rotates(code) && 1 !in r && 2 !in r
    ensures RangesOver(code, 0, r, {1}) == r[1 := Range(0, 6)][2 := Range(4, 6)][1 := Range(2, 6)]
  {
    Numbers(code);
    WidenOne(r, 1, BlockRange(code, 0));
    var end := r[1 := Range(0, 6)];
    assert RangesBack(code, 0, 2, end) == end && RangesBack(code, 0, 1, end) == end[2 := Range(4, 6)];
  }

  lemma LatchDone(code: Code)
    requires Rotates(code) && ValidCode(code)
    ensures RangesFrom(code, 2) == LatchRanges()
  {
    LiveSets(code);
    OverLatch(code);
    BlockBecomes(code, 2, map[], {}, LatchRanges());
  }

  lemma HeadDone(code: Code)
    requires Rotates(code) && ValidCode(code)
    ensures RangesFrom(code, 1) == LatchRanges()[4 := Range(8, 10)]
  {
    LiveSets(code);
    LatchDone(code);
    OverHead(code, LatchRanges());
    LoopBecomes(code, 1, LatchRanges(), {}, {}, LatchRanges()[4 := Range(8, 10)]);
  }

  lemma WayDone(code: Code, r: Ranges, out: set<nat>)
    requires Rotates(code) && ValidCode(code) && LiveOut(code, 0) == out == {1}
    requires RangesFrom(code, 1) == r && 1 !in r && 2 !in r
    ensures RangesFrom(code, 0) == r[1 := Range(0, 6)][2 := Range(4, 6)][1 := Range(2, 6)]
  {
    OverWay(code, r);
    BlockBecomes(code, 0, r, out, r[1 := Range(0, 6)][2 := Range(4, 6)][1 := Range(2, 6)]);
  }

  lemma RangesOfLoop(code: Code)
    requires Rotates(code) && ValidCode(code)
    ensures RangesFrom(code, 0)
         == LatchRanges()[4 := Range(8, 10)][1 := Range(0, 6)][2 := Range(4, 6)][1 := Range(2, 6)]
  {
    LiveSets(code);
    HeadDone(code);
    WayDone(code, LatchRanges()[4 := Range(8, 10)], {1});
  }

  /** The intervals that are not empty. */
  ghost predicate IsRow(r: Ranges) {
    && r.Keys == {1, 2, 4, 5, 6, 7} && r[1] == Range(2, 6) && r[5] == Range(12, 14) && r[6] == Range(14, 16)
    && r[2].Empty() && r[4].Empty() && r[7].Empty()
  }

  lemma WithoutResult(code: Code)
    requires Rotates(code)
    ensures var none := NoValue(code); 1 !in none && 2 in none && 4 in none && 5 !in none && 6 !in none && 7 in none
  {
    assert code[0].insts[1] in code[0].insts && code[1].insts[1] in code[1].insts && code[2].insts[2] in code[2].insts;
  }

  lemma RowLeft(before: Ranges, none: set<nat>, r: Ranges)
    requires before == LatchRanges()[4 := Range(8, 10)][1 := Range(0, 6)][2 := Range(4, 6)][1 := Range(2, 6)]
    requires 1 !in none && 2 in none && 4 in none && 5 !in none && 6 !in none && 7 in none
    requires r.Keys == before.Keys
    requires forall v :: v in before ==>
        r[v] == if v in none then Range(before[v].start, before[v].start) else before[v]
    ensures IsRow(r)
  {
  }

  lemma IntervalsOfLoop(code: Code)
    requires Rotates(code) && ValidCode(code)
    ensures IsRow(Intervals(code))
  {
    RangesOfLoop(code);
    WithoutResult(code);
    var before := RangesFrom(code, 0);
    IntervalsAre(code, before);
    RowLeft(before, NoValue(code), Intervals(code));
  }

  lemma RowIsScanned(r: Ranges, k: nat, order: seq<nat>)
    requires IsRow(r) && k > 0 && ScanOrder(r, order) && forall v :: v in order <==> v in r && !r[v].Empty()
    ensures 5 in Run(r, k, order).inReg && 6 in Run(r, k, order).inReg
    ensures Run(r, k, order).inReg[5] == Run(r, k, order).inReg[6]
  {
    assert [1, 5, 6][..2] == [1, 5] && [1, 5][..1] == [1] && [1][..0] == [];
    assert ScanOrder(r, []) && ScanOrder(r, [1]) && ScanOrder(r, [1, 5]);
    OneScanOrder(r, [1, 5, 6], order);
    RowSharesRegister(r, k, order);
  }

  lemma EndsBefore(code: Code)
    requires Rotates(code) && ValidCode(code)
    ensures !CoversPoint(code, Intervals(code), 5, Point(2, 3))
  {
    IntervalsOfLoop(code);
    Numbers(code);
    PointNumLast(code, 2);
  }

  /** Everything that the analysis asks of the code holds. Still the interval of 5 ends before its block does, although
      the phi reads 5 when control leaves the block; and with any number of registers 6 gets the location of 5, so that
      the phi reads 6. */
  lemma BackEdgeReadIsLost(k: nat, order: seq<nat>, locs: Locations)
    requires k > 0 && ValidCode(RotatingLoop()) && Complete(Intervals(RotatingLoop()), k, order, locs)
    ensures var code := RotatingLoop();
            && Ssa(code, Definitions()) && LoopsContiguous(code)
            && 1 in code[2].succs && 5 in PhiReads(code[1].insts, 2)
            && Definitions()[5] == Point(2, 0) && Definitions()[6] == Point(2, 1)
            && !CoversPoint(code, Intervals(code), 5, Point(2, 3))
            && 5 in locs && 6 in locs && locs[5] == locs[6]
  {
    LoopIsSsa();
    LoopIsContiguous();
    HeadReads();
    EndsBefore(RotatingLoop());
    IntervalsOfLoop(RotatingLoop());
    RowIsScanned(Intervals(RotatingLoop()), k, order);
  }
}
