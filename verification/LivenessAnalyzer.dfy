/** The liveness analysis: numbers the instructions, then goes back over the blocks once. */
module LivenessAnalyzers {
  import opened Wrappers
  import opened Ir
  import opened LinearScan
  import opened Liveness
  import opened LivenessProofs
  import opened IntervalProofs

  class LivenessAnalyzer {
    /** The blocks in linear order. */
    const code: Code
    /** Numbers of instructions and blocks. */
    var liveNums: map<Point, nat>
    var blockRanges: map<nat, Range>
    /** The live sets of the blocks processed so far. */
    var liveSets: map<nat, set<nat>>
    var liveIntervals: Ranges

    ghost predicate Numbered()
      reads this
    {
      && (forall b, k :: 0 <= b < |code| && 0 <= k < |code[b].insts| ==>
            Point(b, k) in liveNums && liveNums[Point(b, k)] == LiveNum(code, b, k))
      && (forall b :: 0 <= b < |code| ==> b in blockRanges && blockRanges[b] == BlockRange(code, b))
    }

    /** Every block from `b` on has been processed. */
    ghost predicate SetsFrom(b: nat)
      reads this
      requires ValidCode(code)
    {
      && (forall c :: c in liveSets <==> b <= c < |code|)
      && (forall c :: c in liveSets ==> liveSets[c] == LiveIn(code, c))
    }

    constructor (code: Code)
      requires ValidCode(code)
      ensures this.code == code && Numbered() && SetsFrom(0) && liveIntervals == Intervals(code)
    {
      this.code := code;
      liveNums, blockRanges, liveSets, liveIntervals := map[], map[], map[], map[];
      new;
      FillLiveNumbers();
      CalcLiveRanges();
    }

    method FillLiveNumbers()
      modifies this`liveNums, this`blockRanges
      ensures Numbered()
    {
      var curLive := 0;
      for b := 0 to |code|
        invariant curLive == BlockStart(code, b)
        invariant forall c, k :: 0 <= c < b && 0 <= k < |code[c].insts| ==>
            Point(c, k) in liveNums && liveNums[Point(c, k)] == LiveNum(code, c, k)
        invariant forall c :: 0 <= c < b ==> c in blockRanges && blockRanges[c] == BlockRange(code, c)
      {
        var bbLiveNum := curLive;
        ghost var done := blockRanges;
        for j := 0 to |code[b].insts|
          invariant curLive == PointNum(code, b, j) && blockRanges == done
          invariant forall c, k :: 0 <= c <= b && 0 <= k < (if c < b then |code[c].insts| else j) ==>
              Point(c, k) in liveNums && liveNums[Point(c, k)] == LiveNum(code, c, k)
        {
          PointNumStep(code, b, j);
          var isPhi := code[b].insts[j].kind.Phi?;
          if !isPhi {
            curLive := curLive + LIVE_NUM_STEP;
          }
          liveNums := liveNums[Point(b, j) := if isPhi then bbLiveNum else curLive];
        }
        PointNumLast(code, b);
        curLive := curLive + LIVE_NUM_STEP;
        blockRanges := blockRanges[b := Range(bbLiveNum, curLive)];
      }
    }

    method UpdateLiveInterval(val: nat, interval: Range)
      modifies this`liveIntervals
      ensures liveIntervals == old(liveIntervals)[val := Joined(old(liveIntervals), val, interval)]
    {
      if val !in liveIntervals {
        liveIntervals := liveIntervals[val := interval];
        return;
      }
      var it := liveIntervals[val];
      liveIntervals := liveIntervals[val := Range(if interval.start < it.start then interval.start else it.start,
                                                  if interval.end > it.end then interval.end else it.end)];
    }

    /** Every value of a live set, in whatever order the set lists them. */
    method UpdateAllOf(vals: set<nat>, interval: Range)
      modifies this`liveIntervals
      ensures liveIntervals == Widen(old(liveIntervals), vals, interval)
    {
      ghost var r := liveIntervals;
      var todo := vals;
      while todo != {}
        invariant todo <= vals
        invariant forall v :: v in liveIntervals <==> v in r || (v in vals && v !in todo)
        invariant forall v :: v in liveIntervals ==>
            liveIntervals[v] == if v in vals && v !in todo then Joined(r, v, interval) else r[v]
      {
        var v :| v in todo;
        UpdateLiveInterval(v, interval);
        todo := todo - {v};
      }
    }

    /** Adds what the successor `succ` of `bb` needs, if it has a live set already. */
    method ProcessSucc(bb: nat, succ: nat, live: set<nat>) returns (live': set<nat>)
      requires bb < |code| && succ < |code|
      ensures live' == if succ in liveSets then live + liveSets[succ] + PhiReads(code[succ].insts, bb) else live
    {
      live' := live;
      if succ !in liveSets {
        return;
      }
      live' := live' + liveSets[succ];
      var insts := code[succ].insts;
      for j := 0 to |insts|
        invariant live' == live + liveSets[succ] + PhiReads(insts[..j], bb)
      {
        assert insts[..j + 1] == insts[..j] + [insts[j]];
        if insts[j].kind.Phi? {
          var entries := insts[j].entries;
          for n := 0 to |entries|
            invariant live' == live + liveSets[succ] + PhiReads(insts[..j], bb)
                             + (set e | e in entries[..n] && e.bb == bb :: e.val)
          {
            assert entries[..n + 1] == entries[..n] + [entries[n]];
            if entries[n].bb == bb {
              live' := live' + {entries[n].val};
            }
          }
          assert entries[..|entries|] == entries;
        }
      }
      assert insts[..|insts|] == insts;
    }

    method CalcInitLiveSet(bb: nat) returns (live: set<nat>)
      requires ValidCode(code) && bb < |code| && SetsFrom(bb + 1)
      modifies this`liveSets
      ensures live == LiveOut(code, bb)
      ensures liveSets == old(liveSets)[bb := {}]
    {
      liveSets := liveSets[bb := {}];
      live := {};
      for n := 0 to |code[bb].succs|
        invariant live == OutOf(code, bb, n) && liveSets == old(liveSets)[bb := {}]
      {
        live := ProcessSucc(bb, code[bb].succs[n], live);
      }
    }

    /** One instruction, going back: its interval starts here, then its operands are live up to it. */
    method ProcessInst(bb: nat, k: nat, live: set<nat>) returns (live': set<nat>)
      requires ValidCode(code) && Numbered() && bb < |code| && k < |code[bb].insts|
      requires live == LiveAt(code, bb, k + 1) && liveIntervals == RangesAt(code, bb, k + 1)
      modifies this`liveIntervals
      ensures live' == LiveAt(code, bb, k) && liveIntervals == RangesAt(code, bb, k)
    {
      live' := live;
      var inst := code[bb].insts[k];
      if inst.kind.Phi? {
        return;
      }
      var liveNum := liveNums[Point(bb, k)];
      if inst.id !in liveIntervals {
        liveIntervals := liveIntervals[inst.id := Range(liveNum, liveNum + LIVE_NUM_STEP)];
      } else {
        DefinitionFits(code, bb, k);
        SetStart(inst.id, liveNum);
      }
      live' := live' - {inst.id};
      live' := ProcessInputs(inst, live', blockRanges[bb].start, liveNum);
    }

    /** The setter throws when the start passes the end; the caller shows that it does not. */
    method SetStart(val: nat, start: nat)
      requires val in liveIntervals && start <= liveIntervals[val].end
      modifies this`liveIntervals
      ensures liveIntervals == old(liveIntervals)[val := Range(start, old(liveIntervals[val].end))]
    {
      liveIntervals := liveIntervals[val := Range(start, liveIntervals[val].end)];
    }

    method ProcessInputs(inst: Inst, live: set<nat>, bbLiveNum: nat, liveNum: nat) returns (live': set<nat>)
      requires inst.ArityOk()
      modifies this`liveIntervals
      ensures live' == live + (set v | v in inst.Operands())
      ensures liveIntervals == UpdateAll(old(liveIntervals), inst.Operands(), Range(bbLiveNum, liveNum))
    {
      live' := live;
      match inst.kind {
        case BinOp =>
          live' := ConsumeInput(live', inst.inputs[0], bbLiveNum, liveNum);
          live' := ConsumeInput(live', inst.inputs[1], bbLiveNum, liveNum);
          UpdatePair(old(liveIntervals), inst.inputs, Range(bbLiveNum, liveNum));
        case UnaryOp | Cast | Ret | If =>
          live' := ConsumeInput(live', inst.inputs[0], bbLiveNum, liveNum);
          UpdateOne(old(liveIntervals), inst.inputs, Range(bbLiveNum, liveNum));
        case Call =>
          for n := 0 to |inst.inputs|
            invariant live' == live + (set v | v in inst.inputs[..n])
            invariant liveIntervals == UpdateAll(old(liveIntervals), inst.inputs[..n], Range(bbLiveNum, liveNum))
          {
            assert inst.inputs[..n + 1] == inst.inputs[..n] + [inst.inputs[n]];
            live' := ConsumeInput(live', inst.inputs[n], bbLiveNum, liveNum);
          }
          assert inst.inputs[..|inst.inputs|] == inst.inputs;
        case Param | Const | Jump | Phi =>
      }
    }

    lemma UpdateOne(r: Ranges, vs: seq<nat>, rg: Range)
      requires |vs| == 1
      ensures UpdateAll(r, vs, rg) == r[vs[0] := Joined(r, vs[0], rg)]
      ensures (set v | v in vs) == {vs[0]}
    {
      assert UpdateAll(r, vs[..0], rg) == r;
    }

    lemma UpdatePair(r: Ranges, vs: seq<nat>, rg: Range)
      requires |vs| == 2
      ensures var first := r[vs[0] := Joined(r, vs[0], rg)];
              UpdateAll(r, vs, rg) == first[vs[1] := Joined(first, vs[1], rg)]
      ensures (set v | v in vs) == {vs[0], vs[1]}
    {
      UpdateOne(r, vs[..1], rg);
    }

    method ConsumeInput(live: set<nat>, val: nat, bbLiveNum: nat, liveNum: nat) returns (live': set<nat>)
      modifies this`liveIntervals
      ensures live' == live + {val}
      ensures liveIntervals == old(liveIntervals)[val := Joined(old(liveIntervals), val, Range(bbLiveNum, liveNum))]
    {
      live' := live + {val};
      UpdateLiveInterval(val, Range(bbLiveNum, liveNum));
    }

    /** Goes back over one block whose successors later in the order have been processed. */
    method ProcessBlock(bb: nat)
      requires ValidCode(code) && Numbered() && bb < |code|
      requires SetsFrom(bb + 1) && liveIntervals == RangesFrom(code, bb + 1)
      modifies this`liveSets, this`liveIntervals
      ensures SetsFrom(bb) && liveIntervals == RangesFrom(code, bb)
    {
      var live := CalcInitLiveSet(bb);
      UpdateAllOf(live, blockRanges[bb]);
      live := GoBack(bb, live);
      liveSets := liveSets[bb := live];
      ExtendOverLoop(bb, live);
    }

    /** What is live at the header of a reducible loop is live up to the loop's last block. */
    method ExtendOverLoop(bb: nat, live: set<nat>)
      requires ValidCode(code) && Numbered() && bb < |code|
      requires live == LiveIn(code, bb) && liveIntervals == RangesAt(code, bb, 0)
      modifies this`liveIntervals
      ensures liveIntervals == RangesFrom(code, bb)
    {
      if IsHeader(code, bb) {
        UpdateAllOf(live, Range(blockRanges[bb].start, blockRanges[code[bb].loop.last].end));
      }
    }

    /** The instructions of a block in reverse, then its phis. */
    method GoBack(bb: nat, liveOut: set<nat>) returns (live: set<nat>)
      requires ValidCode(code) && Numbered() && bb < |code|
      requires liveOut == LiveOut(code, bb) && liveIntervals == RangesAt(code, bb, |code[bb].insts|)
      modifies this`liveIntervals
      ensures live == LiveIn(code, bb) && liveIntervals == RangesAt(code, bb, 0)
    {
      live := liveOut;
      for k := |code[bb].insts| downto 0
        invariant live == LiveAt(code, bb, k) && liveIntervals == RangesAt(code, bb, k)
      {
        live := ProcessInst(bb, k, live);
      }
      live := ErasePhis(bb, live);
    }

    method ErasePhis(bb: nat, live: set<nat>) returns (live': set<nat>)
      requires bb < |code|
      ensures live' == live - PhiIds(code[bb].insts)
    {
      live' := live;
      var insts := code[bb].insts;
      for j := 0 to |insts|
        invariant live' == live - PhiIds(insts[..j])
      {
        assert insts[..j + 1] == insts[..j] + [insts[j]];
        if insts[j].kind.Phi? {
          live' := live' - {insts[j].id};
        }
      }
      assert insts[..|insts|] == insts;
    }

    method CalcLiveRanges()
      requires ValidCode(code) && Numbered() && liveSets == map[] && liveIntervals == map[]
      modifies this`liveSets, this`liveIntervals
      ensures SetsFrom(0) && liveIntervals == Intervals(code)
    {
      for b := |code| downto 0
        invariant SetsFrom(b) && liveIntervals == RangesFrom(code, b)
        invariant Numbered()
      {
        ProcessBlock(b);
      }
      ReduceToEmpty();
    }

    ghost function Cut(r: Ranges, vs: set<nat>): Ranges {
      map v | v in r :: if v in vs then Range(r[v].start, r[v].start) else r[v]
    }

    /** Instructions without a result get an empty interval. */
    method ReduceToEmpty()
      requires ValidCode(code) && liveIntervals == RangesFrom(code, 0)
      modifies this`liveIntervals
      ensures liveIntervals == Intervals(code)
    {
      ghost var r, done := liveIntervals, {};
      for b := 0 to |code|
        invariant liveIntervals == Cut(r, done) && done <= NoValue(code)
        invariant forall c, i :: 0 <= c < b && i in code[c].insts && !i.ProducesValue() ==> i.id in done
      {
        var insts := code[b].insts;
        for k := 0 to |insts|
          invariant liveIntervals == Cut(r, done) && done <= NoValue(code)
          invariant forall c, i :: 0 <= c < b && i in code[c].insts && !i.ProducesValue() ==> i.id in done
          invariant forall i :: i in insts[..k] && !i.ProducesValue() ==> i.id in done
        {
          assert insts[..k + 1] == insts[..k] + [insts[k]];
          if !insts[k].ProducesValue() {
            DefNeedIsMet(code, Point(b, k));
            var it := liveIntervals[insts[k].id];
            liveIntervals := liveIntervals[insts[k].id := Range(it.start, it.start)];
            done := done + {insts[k].id};
          }
        }
        assert insts[..|insts|] == insts;
      }
      assert done == NoValue(code);
    }

    method GetLiveInterval(val: nat) returns (interval: Option<Range>)
      ensures interval == if val in liveIntervals then Some(liveIntervals[val]) else None
    {
      if val !in liveIntervals {
        return None;
      }
      return Some(liveIntervals[val]);
    }
  }
}
