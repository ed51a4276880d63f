/** What a branch in a loop costs: two values that are needed share a register. */
module BranchProgram {
  // Block 2 of the graph gives 5 and 6; the sides of the branch take one each to the phi 9 in the latch. The linear
  // order puts block 4, which needs 5, before block 2.

  import opened Graphs
  import opened BlockLayouts
  import opened BranchInLoop
  import opened Ir
  import opened LinearScan
  import opened Liveness
  import opened LivenessSteps
  import opened LivenessProofs
  import opened IntervalProofs
  import opened RegAllocators
  import opened Allocation
  import opened ScanRows

  // The blocks are named by their places in the order 0, 1, 4, 2, 3, 6, 5.

  function Entry(): Block {
    Block([Inst(1, Const, [], []), Inst(2, Jump, [], [])], [1], LoopInfo(7, false, 0))
  }

  function Head(): Block {
    Block([Inst(3, If, [1], [])], [3, 6], LoopInfo(1, true, 5))
  }

  function Right(): Block {
    Block([Inst(4, Jump, [], [])], [5], LoopInfo(1, true, 5))
  }

  function Fork(): Block {
    Block([Inst(5, Const, [], []), Inst(6, Const, [], []), Inst(7, If, [1], [])], [4, 2], LoopInfo(1, true, 5))
  }

  function Left(): Block {
    Block([Inst(8, Jump, [], [])], [5], LoopInfo(1, true, 5))
  }

  function Latch(): Block {
    Block([Inst(9, Phi, [6, 5], [PhiEntry(6, 4), PhiEntry(5, 2)]), Inst(10, Call, [9], []), Inst(11, Jump, [], [])],
          [1], LoopInfo(1, true, 5))
  }

  function Exit(): Block {
    Block([Inst(12, Ret, [1], [])], [], LoopInfo(7, false, 0))
  }

  ghost predicate IsBranches(code: Code) {
    && |code| == 7 && code[0] == Entry() && code[1] == Head() && code[2] == Right() && code[3] == Fork()
    && code[4] == Left() && code[5] == Latch() && code[6] == Exit()
  }

  function Definitions(): map<nat, Point> {
    map[1 := Point(0, 0), 2 := Point(0, 1), 3 := Point(1, 0), 4 := Point(2, 0), 5 := Point(3, 0), 6 := Point(3, 1),
        7 := Point(3, 2), 8 := Point(4, 0), 9 := Point(5, 0), 10 := Point(5, 1), 11 := Point(5, 2), 12 := Point(6, 0)]
  }

  /** It is the graph with the branch, laid out in its linear order. */
  lemma BranchesAreLaidOut(code: Code)
    requires IsBranches(code)
    ensures LaidOut(Branching(), OneLoop(), [0, 1, 4, 2, 3, 6, 5], code)
  {
    var g, order := Branching(), [0, 1, 4, 2, 3, 6, 5];
    forall p: nat | p < |order|
      ensures order[p] < |g| && EdgesAt(g, order, order[p], code[p].succs) && HeaderAt(OneLoop(), order, code, p)
    {
    }
  }

  // ----- SSA -----

  lemma BranchesAreValid(code: Code)
    requires IsBranches(code)
    ensures ValidCode(code)
  {
    forall b, k | 0 <= b < |code| && 0 <= k < |code[b].insts| ensures code[b].insts[k].ArityOk() {
    }
  }

  lemma EachIsDefined(code: Code)
    requires IsBranches(code)
    ensures var defs := Definitions();
            && (forall b, k :: 0 <= b < |code| && 0 <= k < |code[b].insts| ==>
                  code[b].insts[k].id in defs && defs[code[b].insts[k].id] == Point(b, k))
            && (forall v :: v in defs ==> IsDef(code, defs[v]) && code[defs[v].b].insts[defs[v].k].id == v)
  {
  }

  lemma LatchReads()
    ensures var latch := Latch().insts; PhiReads(latch, 4) == {6} && PhiReads(latch, 2) == {5} && PhiIds(latch) == {9}
  {
    var phi := Latch().insts[0];
    assert phi in Latch().insts && PhiEntry(6, 4) in phi.entries && PhiEntry(5, 2) in phi.entries;
  }

  lemma ReadByInst(code: Code, v: nat, p: Point)
    requires IsBranches(code) && ReadAt(code, v, p) && p.k < |code[p.b].insts|
    ensures (v == 1 && (p == Point(1, 0) || p == Point(3, 2) || p == Point(6, 0))) || (v == 9 && p == Point(5, 1))
  {
  }

  lemma OnlyLatchHasPhis(code: Code, b: nat, pred: nat)
    requires IsBranches(code) && b < 7 && b != 5
    ensures PhiIds(code[b].insts) == {} && PhiReads(code[b].insts, pred) == {}
  {
    NoPhis(code[b].insts, pred);
  }

  lemma LeadsToLatch(code: Code, b: nat)
    requires IsBranches(code) && b < 5 && 5 in code[b].succs
    ensures b == 2 || b == 4
  {
  }

  lemma ReadByPhi(code: Code, v: nat, p: Point)
    requires IsBranches(code) && ReadAt(code, v, p) && p.k == |code[p.b].insts|
    ensures (v == 5 && p == Point(2, 1)) || (v == 6 && p == Point(4, 1))
  {
    var s :| ReadOnExit(code, v, p.b, s);
    if s != 5 {
      OnlyLatchHasPhis(code, s, p.b);
    }
    if p.b < 5 {
      LeadsToLatch(code, p.b);
    }
    LatchReads();
  }

  // ----- dominance -----

  /** The way to a place is the way to its block. */
  lemma {:induction false} ThroughPlace(code: Code, path: seq<nat>, a: nat)
    requires IsBranches(code) && IsPath(Cfg(code), path) && path[0] == 0
    requires (a == 1 && path[|path| - 1] != 0) || (a == 3 && path[|path| - 1] in {2, 3, 4, 5})
    ensures a in path
  {
    PathEdge(Cfg(code), path, |path| - 2);
    var u := path[|path| - 2];
    if path[|path| - 1] != a {
      PathFront(Cfg(code), path, |path| - 1);
      ThroughPlace(code, path[..|path| - 1], a);
    }
  }

  lemma PlaceDominates(code: Code, a: nat, b: nat)
    requires IsBranches(code) && (a == 0 || (a == 1 && b != 0) || (a == 3 && b in {2, 3, 4, 5}))
    ensures Dominates(Cfg(code), 0, a, b)
  {
    forall path | EntryPath(Cfg(code), 0, path, b) ensures a in path {
      if a == 0 {
        assert path[0] == 0;
      } else {
        ThroughPlace(code, path, a);
      }
    }
  }

  lemma BranchesAreSsa(code: Code)
    requires IsBranches(code)
    ensures ValidCode(code) && Ssa(code, Definitions())
  {
    var defs := Definitions();
    BranchesAreValid(code);
    EachIsDefined(code);
    forall v, p | ReadAt(code, v, p)
      ensures v in defs && DefBefore(code, defs[v], p) && code[defs[v].b].insts[defs[v].k].ProducesValue()
    {
      if p.k < |code[p.b].insts| {
        ReadByInst(code, v, p);
        PlaceDominates(code, 0, p.b);
      } else {
        ReadByPhi(code, v, p);
        PlaceDominates(code, 3, p.b);
      }
    }
  }

  // ----- both values are needed behind their definitions -----

  lemma LiveToLeft(code: Code)
    requires IsBranches(code)
    ensures Live(code, 6, Point(3, 2))
  {
    LatchReads();
    OnlyLatchHasPhis(code, 4, 3);
    assert ReadOnExit(code, 6, 4, 5);
    assert LivePath(code, 6, [Point(4, 1)]);
    assert [Point(4, 0), Point(4, 1)][1..] == [Point(4, 1)];
    assert LivePath(code, 6, [Point(4, 0), Point(4, 1)]);
    assert [Point(3, 3), Point(4, 0), Point(4, 1)][1..] == [Point(4, 0), Point(4, 1)];
    assert LivePath(code, 6, [Point(3, 3), Point(4, 0), Point(4, 1)]);
    var path := [Point(3, 2), Point(3, 3), Point(4, 0), Point(4, 1)];
    assert path[1..] == [Point(3, 3), Point(4, 0), Point(4, 1)];
    assert LivePath(code, 6, path) && path[0] == Point(3, 2);
  }

  lemma LiveToRight(code: Code)
    requires IsBranches(code)
    ensures Live(code, 5, Point(3, 2))
  {
    LatchReads();
    OnlyLatchHasPhis(code, 2, 3);
    assert ReadOnExit(code, 5, 2, 5);
    assert LivePath(code, 5, [Point(2, 1)]);
    assert [Point(2, 0), Point(2, 1)][1..] == [Point(2, 1)];
    assert LivePath(code, 5, [Point(2, 0), Point(2, 1)]);
    assert [Point(3, 3), Point(2, 0), Point(2, 1)][1..] == [Point(2, 0), Point(2, 1)];
    assert LivePath(code, 5, [Point(3, 3), Point(2, 0), Point(2, 1)]);
    var path := [Point(3, 2), Point(3, 3), Point(2, 0), Point(2, 1)];
    assert path[1..] == [Point(3, 3), Point(2, 0), Point(2, 1)];
    assert LivePath(code, 5, path) && path[0] == Point(3, 2);
  }

  // ----- the numbers -----

  lemma Counts(code: Code)
    requires IsBranches(code)
    ensures NonPhis(code[0].insts[..1]) == 1 && NonPhis(code[0].insts[..2]) == 2
    ensures NonPhis(code[1].insts[..1]) == 1 && NonPhis(code[2].insts[..1]) == 1
    ensures NonPhis(code[4].insts[..1]) == 1 && NonPhis(code[6].insts[..1]) == 1
  {
    assert code[0].insts[..1][..0] == [] && code[0].insts[..2][..1] == code[0].insts[..1];
    assert code[1].insts[..1][..0] == [] && code[2].insts[..1][..0] == [];
    assert code[4].insts[..1][..0] == [] && code[6].insts[..1][..0] == [];
  }

  lemma ForkCounts(code: Code)
    requires IsBranches(code)
    ensures NonPhis(code[3].insts[..1]) == 1 && NonPhis(code[3].insts[..2]) == 2 && NonPhis(code[3].insts[..3]) == 3
  {
    var insts := code[3].insts;
    assert insts[..1][..0] == [] && insts[..2][..1] == insts[..1] && insts[..3][..2] == insts[..2];
  }

  lemma LatchCounts(code: Code)
    requires IsBranches(code)
    ensures NonPhis(code[5].insts[..1]) == 0 && NonPhis(code[5].insts[..2]) == 1 && NonPhis(code[5].insts[..3]) == 2
  {
    var insts := code[5].insts;
    assert insts[..1][..0] == [] && insts[..2][..1] == insts[..1] && insts[..3][..2] == insts[..2];
  }

  lemma BlockSizes(code: Code)
    requires IsBranches(code)
    ensures NonPhis(code[0].insts) == 2 && NonPhis(code[1].insts) == 1 && NonPhis(code[2].insts) == 1
    ensures NonPhis(code[3].insts) == 3 && NonPhis(code[4].insts) == 1 && NonPhis(code[5].insts) == 2
    ensures NonPhis(code[6].insts) == 1
  {
    Counts(code);
    ForkCounts(code);
    LatchCounts(code);
    assert forall b, n :: 0 <= b < 7 && n == |code[b].insts| ==> code[b].insts[..n] == code[b].insts;
  }

  lemma Starts(code: Code)
    requires IsBranches(code)
    ensures BlockStart(code, 0) == 0 && BlockStart(code, 1) == 6 && BlockStart(code, 2) == 10
            && BlockStart(code, 3) == 14
    ensures BlockStart(code, 4) == 22 && BlockStart(code, 5) == 26 && BlockStart(code, 6) == 32
            && BlockStart(code, 7) == 36
  {
    BlockSizes(code);
    assert BlockStart(code, 0) == 0;
    assert BlockStart(code, 1) == 6;
    assert BlockStart(code, 2) == 10;
    assert BlockStart(code, 3) == 14;
    assert BlockStart(code, 4) == 22;
    assert BlockStart(code, 5) == 26;
    assert BlockStart(code, 6) == 32;
  }

  // ----- the live sets -----

  lemma LiveInExit(code: Code)
    requires IsBranches(code) && ValidCode(code)
    ensures LiveOut(code, 6) == {} && LiveIn(code, 6) == {1}
  {
    OutOfNone(code, 6);
    assert LiveBack(code[6].insts, 1, {}) == {} && LiveBack(code[6].insts, 0, {}) == {1};
    OnlyLatchHasPhis(code, 6, 0);
    LiveInIs(code, 6);
  }

  lemma LiveInLatch(code: Code)
    requires IsBranches(code) && ValidCode(code)
    ensures LiveOut(code, 5) == {} && LiveIn(code, 5) == {}
  {
    OutOfOne(code, 5, 1);
    assert LiveBack(code[5].insts, 3, {}) == {} && LiveBack(code[5].insts, 2, {}) == {};
    assert LiveBack(code[5].insts, 1, {}) == {9} && LiveBack(code[5].insts, 0, {}) == {9};
    LatchReads();
    LiveInIs(code, 5);
  }

  lemma LiveInSides(code: Code)
    requires IsBranches(code) && ValidCode(code)
    ensures LiveOut(code, 4) == {6} && LiveIn(code, 4) == {6} && LiveOut(code, 2) == {5}
  {
    LiveInLatch(code);
    LatchReads();
    OutOfOne(code, 4, 5);
    assert LiveBack(code[4].insts, 1, {6}) == {6} && LiveBack(code[4].insts, 0, {6}) == {6};
    OnlyLatchHasPhis(code, 4, 0);
    LiveInIs(code, 4);
    OutOfOne(code, 2, 5);
  }

  /** At the end of the fork only 6 is live for the pass. */
  lemma LiveInFork(code: Code)
    requires IsBranches(code) && ValidCode(code)
    ensures LiveOut(code, 3) == {6} && LiveIn(code, 3) == {1}
  {
    LiveInSides(code);
    OnlyLatchHasPhis(code, 4, 3);
    OutOfTwo(code, 3, 4, 2);
    assert LiveBack(code[3].insts, 3, {6}) == {6} && LiveBack(code[3].insts, 2, {6}) == {6, 1};
    assert LiveBack(code[3].insts, 1, {6}) == {1} && LiveBack(code[3].insts, 0, {6}) == {1};
    OnlyLatchHasPhis(code, 3, 0);
    LiveInIs(code, 3);
  }

  lemma LiveInHead(code: Code)
    requires IsBranches(code) && ValidCode(code)
    ensures LiveOut(code, 1) == {1} && LiveIn(code, 1) == {1} && LiveOut(code, 0) == {1}
  {
    LiveInFork(code);
    LiveInExit(code);
    OnlyLatchHasPhis(code, 3, 1);
    OnlyLatchHasPhis(code, 6, 1);
    OutOfTwo(code, 1, 3, 6);
    assert LiveBack(code[1].insts, 1, {1}) == {1} && LiveBack(code[1].insts, 0, {1}) == {1};
    OnlyLatchHasPhis(code, 1, 0);
    LiveInIs(code, 1);
    OutOfOne(code, 0, 1);
  }

  // ----- the intervals, block by block -----

  lemma OverExit(code: Code)
    requires IsBranches(code)
    ensures RangesOver(code, 6, map[], {}) == map[12 := Range(34, 36), 1 := Range(32, 34)]
  {
    Starts(code);
    Counts(code);
    WidenNone(map[], BlockRange(code, 6));
    assert RangesBack(code, 6, 1, map[]) == map[];
    ReadOne(map[12 := Range(34, 36)], 1, Range(32, 34));
  }

  lemma OverLatch(code: Code, r: Ranges)
    requires IsBranches(code) && 9 !in r && 10 !in r && 11 !in r
    ensures RangesOver(code, 5, r, {}) == r[11 := Range(30, 32)][10 := Range(28, 30)][9 := Range(26, 28)]
  {
    Starts(code);
    LatchCounts(code);
    WidenNone(r, BlockRange(code, 5));
    assert RangesBack(code, 5, 3, r) == r && RangesBack(code, 5, 2, r) == r[11 := Range(30, 32)];
    ReadOne(r[11 := Range(30, 32)][10 := Range(28, 30)], 9, Range(26, 28));
    assert RangesBack(code, 5, 1, r) == r[11 := Range(30, 32)][10 := Range(28, 30)][9 := Range(26, 28)];
  }

  lemma OverLeft(code: Code, r: Ranges)
    requires IsBranches(code) && 6 !in r && 8 !in r
    ensures RangesOver(code, 4, r, {6}) == r[6 := Range(22, 26)][8 := Range(24, 26)]
  {
    Starts(code);
    Counts(code);
    WidenOne(r, 6, BlockRange(code, 4));
    var end := r[6 := Range(22, 26)];
    assert RangesBack(code, 4, 1, end) == end;
  }

  /** 5 has no read further on: its interval ends with its definition. */
  lemma OverFork(code: Code, r: Ranges)
    requires IsBranches(code) && 5 !in r && 7 !in r
    requires 6 in r && r[6] == Range(22, 26) && 1 in r && r[1] == Range(32, 34)
    ensures RangesOver(code, 3, r, {6})
         == r[6 := Range(14, 26)][7 := Range(20, 22)][1 := Range(14, 34)][6 := Range(18, 26)][5 := Range(16, 18)]
  {
    Starts(code);
    ForkCounts(code);
    WidenOne(r, 6, BlockRange(code, 3));
    var end := r[6 := Range(14, 26)];
    ReadOne(end[7 := Range(20, 22)], 1, Range(14, 20));
    var fork := end[7 := Range(20, 22)][1 := Range(14, 34)];
    assert RangesBack(code, 3, 3, end) == end && RangesBack(code, 3, 2, end) == fork;
    assert RangesBack(code, 3, 1, end) == fork[6 := Range(18, 26)];
  }

  /** Going on to the block before, the pass finds 5 live there, and starts the interval there. */
  lemma OverRight(code: Code, r: Ranges)
    requires IsBranches(code) && 4 !in r && 5 in r && r[5] == Range(16, 18)
    ensures RangesOver(code, 2, r, {5}) == r[5 := Range(10, 18)][4 := Range(12, 14)]
  {
    Starts(code);
    Counts(code);
    WidenOne(r, 5, BlockRange(code, 2));
    var end := r[5 := Range(10, 18)];
    assert RangesBack(code, 2, 1, end) == end;
  }

  lemma OverHead(code: Code, r: Ranges)
    requires IsBranches(code) && 3 !in r && 1 in r && r[1] == Range(14, 34)
    ensures Widen(RangesOver(code, 1, r, {1}), {1}, Range(BlockStart(code, 1), BlockStart(code, 6)))
         == r[1 := Range(6, 34)][3 := Range(8, 10)][1 := Range(6, 34)]
  {
    Starts(code);
    Counts(code);
    WidenOne(r, 1, BlockRange(code, 1));
    var end := r[1 := Range(6, 34)];
    assert RangesBack(code, 1, 1, end) == end;
    ReadOne(end[3 := Range(8, 10)], 1, Range(6, 8));
    WidenOne(end[3 := Range(8, 10)][1 := Range(6, 34)], 1, Range(6, 32));
  }

  lemma OverEntry(code: Code, r: Ranges)
    requires IsBranches(code) && 2 !in r && 1 in r && r[1] == Range(6, 34)
    ensures RangesOver(code, 0, r, {1}) == r[1 := Range(0, 34)][2 := Range(4, 6)][1 := Range(2, 34)]
  {
    Starts(code);
    Counts(code);
    WidenOne(r, 1, BlockRange(code, 0));
    var end := r[1 := Range(0, 34)];
    assert RangesBack(code, 0, 2, end) == end && RangesBack(code, 0, 1, end) == end[2 := Range(4, 6)];
  }

  /** The intervals of the latch and the block behind the loop. */
  ghost predicate LatchRow(r: Ranges) {
    (forall v :: v in r <==> v == 1 || 9 <= v <= 12) && r[1] == Range(32, 34) && r[9] == Range(26, 28)
      && r[10] == Range(28, 30)
  }

  lemma ExitDone(code: Code)
    requires IsBranches(code) && ValidCode(code)
    ensures RangesFrom(code, 6) == map[12 := Range(34, 36), 1 := Range(32, 34)]
  {
    LiveInExit(code);
    OverExit(code);
    BlockBecomes(code, 6, map[], {}, map[12 := Range(34, 36), 1 := Range(32, 34)]);
  }

  lemma LatchDone(code: Code)
    requires IsBranches(code) && ValidCode(code)
    ensures LatchRow(RangesFrom(code, 5))
  {
    ExitDone(code);
    LiveInLatch(code);
    var exit := RangesFrom(code, 6);
    OverLatch(code, exit);
    BlockBecomes(code, 5, exit, {}, exit[11 := Range(30, 32)][10 := Range(28, 30)][9 := Range(26, 28)]);
  }

  ghost predicate LeftRow(r: Ranges) {
    && (forall v :: v in r <==> v == 1 || v == 6 || 8 <= v <= 12)
    && r[1] == Range(32, 34) && r[6] == Range(22, 26) && r[9] == Range(26, 28) && r[10] == Range(28, 30)
  }

  lemma LeftFacts(r: Ranges)
    requires LatchRow(r)
    ensures LeftRow(r[6 := Range(22, 26)][8 := Range(24, 26)])
  {
  }

  lemma LeftDone(code: Code, r: Ranges)
    requires IsBranches(code) && ValidCode(code) && RangesFrom(code, 5) == r && 6 !in r && 8 !in r
    ensures RangesFrom(code, 4) == r[6 := Range(22, 26)][8 := Range(24, 26)]
  {
    LiveInSides(code);
    OverLeft(code, r);
    BlockBecomes(code, 4, r, {6}, r[6 := Range(22, 26)][8 := Range(24, 26)]);
  }

  ghost predicate ForkRow(r: Ranges) {
    && (forall v :: v in r <==> v == 1 || 5 <= v <= 12)
    && r[1] == Range(14, 34) && r[5] == Range(16, 18) && r[6] == Range(18, 26) && r[9] == Range(26, 28)
       && r[10] == Range(28, 30)
  }

  lemma ForkDone(code: Code, r: Ranges)
    requires IsBranches(code) && ValidCode(code) && RangesFrom(code, 4) == r && LeftRow(r)
    ensures ForkRow(RangesFrom(code, 3))
  {
    LiveInFork(code);
    OverFork(code, r);
    BlockBecomes(code, 3, r, {6},
                 r[6 := Range(14, 26)][7 := Range(20, 22)][1 := Range(14, 34)][6 := Range(18, 26)][5 := Range(16, 18)]);
  }

  ghost predicate RightRow(r: Ranges) {
    && (forall v :: v in r <==> v == 1 || 4 <= v <= 12)
    && r[1] == Range(14, 34) && r[5] == Range(10, 18) && r[6] == Range(18, 26) && r[9] == Range(26, 28)
       && r[10] == Range(28, 30)
  }

  lemma RightFacts(r: Ranges)
    requires ForkRow(r)
    ensures RightRow(r[5 := Range(10, 18)][4 := Range(12, 14)])
  {
  }

  lemma RightDone(code: Code, r: Ranges)
    requires IsBranches(code) && ValidCode(code) && RangesFrom(code, 3) == r && 4 !in r && 5 in r
             && r[5] == Range(16, 18)
    ensures RangesFrom(code, 2) == r[5 := Range(10, 18)][4 := Range(12, 14)]
  {
    LiveInSides(code);
    OverRight(code, r);
    BlockBecomes(code, 2, r, {5}, r[5 := Range(10, 18)][4 := Range(12, 14)]);
  }

  ghost predicate HeadRow(r: Ranges) {
    && (forall v :: v in r <==> v == 1 || 3 <= v <= 12)
    && r[1] == Range(6, 34) && r[5] == Range(10, 18) && r[6] == Range(18, 26) && r[9] == Range(26, 28)
       && r[10] == Range(28, 30)
  }

  lemma HeadFacts(r: Ranges)
    requires RightRow(r)
    ensures HeadRow(r[1 := Range(6, 34)][3 := Range(8, 10)][1 := Range(6, 34)])
  {
  }

  lemma HeadDone(code: Code, r: Ranges)
    requires IsBranches(code) && ValidCode(code) && RangesFrom(code, 2) == r && 3 !in r && 1 in r
             && r[1] == Range(14, 34)
    ensures RangesFrom(code, 1) == r[1 := Range(6, 34)][3 := Range(8, 10)][1 := Range(6, 34)]
  {
    LiveInHead(code);
    OverHead(code, r);
    LoopBecomes(code, 1, r, {1}, {1}, r[1 := Range(6, 34)][3 := Range(8, 10)][1 := Range(6, 34)]);
  }

  ghost predicate EntryRow(r: Ranges) {
    && (forall v :: v in r <==> 1 <= v <= 12)
    && r[1] == Range(2, 34) && r[5] == Range(10, 18) && r[6] == Range(18, 26) && r[9] == Range(26, 28)
       && r[10] == Range(28, 30)
  }

  lemma EntryFacts(r: Ranges)
    requires HeadRow(r)
    ensures EntryRow(r[1 := Range(0, 34)][2 := Range(4, 6)][1 := Range(2, 34)])
  {
  }

  lemma EntryDone(code: Code, r: Ranges)
    requires IsBranches(code) && ValidCode(code) && RangesFrom(code, 1) == r && 2 !in r && 1 in r
             && r[1] == Range(6, 34)
    ensures RangesFrom(code, 0) == r[1 := Range(0, 34)][2 := Range(4, 6)][1 := Range(2, 34)]
  {
    LiveInHead(code);
    OverEntry(code, r);
    BlockBecomes(code, 0, r, {1}, r[1 := Range(0, 34)][2 := Range(4, 6)][1 := Range(2, 34)]);
  }

  lemma LoopDone(code: Code)
    requires IsBranches(code) && ValidCode(code)
    ensures RightRow(RangesFrom(code, 2))
  {
    LatchDone(code);
    LeftDone(code, RangesFrom(code, 5));
    LeftFacts(RangesFrom(code, 5));
    ForkDone(code, RangesFrom(code, 4));
    RightDone(code, RangesFrom(code, 3));
    RightFacts(RangesFrom(code, 3));
  }

  lemma AllDone(code: Code)
    requires IsBranches(code) && ValidCode(code)
    ensures EntryRow(RangesFrom(code, 0))
  {
    LoopDone(code);
    HeadDone(code, RangesFrom(code, 2));
    HeadFacts(RangesFrom(code, 2));
    EntryDone(code, RangesFrom(code, 1));
    EntryFacts(RangesFrom(code, 1));
  }

  /** The intervals in the end: those of the instructions without a result are empty. */
  ghost predicate IsRow(r: Ranges) {
    EntryRow(r) && forall v :: v in r && !WithResult(v) ==> r[v].Empty()
  }

  ghost predicate WithResult(v: nat) {
    v == 1 || v == 5 || v == 6 || v == 9 || v == 10
  }

  lemma HasNoResult(code: Code, v: nat)
    requires IsBranches(code) && 1 <= v <= 12
    ensures v in NoValue(code) <==> !WithResult(v)
  {
    EachIsDefined(code);
    var d := Definitions()[v];
    assert code[d.b].insts[d.k].id == v && code[d.b].insts[d.k] in code[d.b].insts;
    assert code[d.b].insts[d.k].ProducesValue() <==> WithResult(v);
    if v in NoValue(code) {
      var b, i :| 0 <= b < |code| && i in code[b].insts && !i.ProducesValue() && i.id == v;
      var k :| 0 <= k < |code[b].insts| && code[b].insts[k] == i;
    }
  }

  lemma IntervalsOfBranches(code: Code)
    requires IsBranches(code) && ValidCode(code)
    ensures IsRow(Intervals(code))
  {
    AllDone(code);
    IntervalsAre(code, RangesFrom(code, 0));
    forall v: nat | 1 <= v <= 12 ensures v in NoValue(code) <==> !WithResult(v) {
      HasNoResult(code, v);
    }
  }

  // ----- the registers -----

  lemma RowIsScanned(r: Ranges, k: nat, order: seq<nat>)
    requires IsRow(r) && k > 0 && ScanOrder(r, order) && forall v :: v in order <==> v in r && !r[v].Empty()
    ensures 5 in Run(r, k, order).inReg && 6 in Run(r, k, order).inReg
    ensures Run(r, k, order).inReg[5] == Run(r, k, order).inReg[6]
  {
    RowInOrder(r);
    OneScanOrder(r, [1, 5, 6, 9, 10], order);
    RowIsBeside(r, order);
    RowBesideShares(r, k, order);
    SharedInRow(k, order, Run(r, k, order));
  }

  lemma RowIsBeside(r: Ranges, order: seq<nat>)
    requires EntryRow(r) && order == [1, 5, 6, 9, 10]
    ensures AllIn(r, order) && RowBeside(r, order)
  {
    assert order[1..] == [5, 6, 9, 10];
  }

  lemma SharedInRow(k: nat, order: seq<nat>, s: Scan)
    requires order == [1, 5, 6, 9, 10] && RowPlaced(k, order, s)
    ensures 5 in s.inReg && 6 in s.inReg && s.inReg[5] == s.inReg[6]
  {
    assert order[1..] == [5, 6, 9, 10];
  }

  lemma RowInOrder(r: Ranges)
    requires IsRow(r)
    ensures ScanOrder(r, [1, 5, 6, 9, 10])
  {
    assert [1, 5, 6, 9, 10][..4] == [1, 5, 6, 9] && [1, 5, 6, 9][..3] == [1, 5, 6];
    assert [1, 5, 6][..2] == [1, 5] && [1, 5][..1] == [1] && [1][..0] == [];
    assert ScanOrder(r, []) && ScanOrder(r, [1]) && ScanOrder(r, [1, 5]) && ScanOrder(r, [1, 5, 6]);
    assert ScanOrder(r, [1, 5, 6, 9]);
  }

  lemma EndsBefore(code: Code)
    requires IsBranches(code) && ValidCode(code)
    ensures !CoversPoint(code, Intervals(code), 5, Point(3, 2))
  {
    IntervalsOfBranches(code);
    Starts(code);
    ForkCounts(code);
  }

  /** The program has SSA form and is laid out in the linear order of its graph. Behind their definitions 5 and 6 are
      both live; the interval of 5 has ended there, and with any number of registers 6 gets the register of 5. */
  lemma BranchSharesRegister(code: Code, k: nat, order: seq<nat>, locs: Locations)
    requires IsBranches(code) && ValidCode(code) && k > 0 && Complete(Intervals(code), k, order, locs)
    ensures LaidOut(Branching(), OneLoop(), [0, 1, 4, 2, 3, 6, 5], code) && Ssa(code, Definitions())
    ensures Live(code, 5, Point(3, 2)) && Live(code, 6, Point(3, 2))
    ensures !CoversPoint(code, Intervals(code), 5, Point(3, 2))
    ensures 5 in locs && 6 in locs && locs[5] == locs[6]
  {
    BranchesAreLaidOut(code);
    BranchesAreSsa(code);
    LiveToLeft(code);
    LiveToRight(code);
    EndsBefore(code);
    IntervalsOfBranches(code);
    RowIsScanned(Intervals(code), k, order);
  }
}
