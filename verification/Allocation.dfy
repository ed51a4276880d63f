/** Liveness and linear scan together: values that are live at the same point never share a place. */
module Allocation {
  import opened Ir
  import opened LinearScan
  import opened Liveness
  import opened LivenessProofs
  import opened IntervalProofs
  import opened RegAllocators
  import opened LivenessAnalyzers

  /** At `p` the place of `v` holds something: `v` is live, or it has just been written. */
  ghost predicate Occupied(code: Code, defs: map<nat, Point>, v: nat, p: Point)
    requires Ssa(code, defs)
  {
    || Live(code, v, p)
    || (v in defs && p == Point(defs[v].b, defs[v].k + 1)
        && !IsPhi(code, defs[v]) && code[defs[v].b].insts[defs[v].k].ProducesValue())
  }

  lemma OccupiedIsCovered(code: Code, defs: map<nat, Point>, v: nat, p: Point)
    requires ValidCode(code) && LoopsContiguous(code) && Ssa(code, defs) && Occupied(code, defs, v, p)
    ensures IsPoint(code, p) && CoversPoint(code, Intervals(code), v, p)
  {
    if Live(code, v, p) {
      LiveIsCovered(code, defs, v, p);
    } else {
      DefinitionIsCovered(code, defs, defs[v].b, defs[v].k);
    }
  }

  /** The locations of a finished scan. */
  ghost predicate Complete(r: Ranges, k: nat, order: seq<nat>, locs: Locations) {
    && ScanOrder(r, order)
    && (forall v :: v in order <==> v in r && !r[v].Empty())
    && Located(locs, Run(r, k, order))
  }

  /** End to end: two values that occupy their places at the same point have different places. */
  lemma OccupiedPlacesDiffer(code: Code, defs: map<nat, Point>, k: nat, order: seq<nat>, locs: Locations,
                             v: nat, w: nat, p: Point)
    requires ValidCode(code) && LoopsContiguous(code) && Ssa(code, defs)
    requires Complete(Intervals(code), k, order, locs)
    requires v != w && Occupied(code, defs, v, p) && Occupied(code, defs, w, p)
    ensures v in locs && w in locs && locs[v] != locs[w]
  {
    var r, s := Intervals(code), Run(Intervals(code), k, order);
    OccupiedIsCovered(code, defs, v, p);
    OccupiedIsCovered(code, defs, w, p);
    RunIsSafe(r, k, order);
    assert SameReg(s.inReg, v, w) ==> r[v].Disjoint(r[w]);
  }

  lemma IntervalsAreOrdered(code: Code)
    requires ValidCode(code)
    ensures forall v :: v in Intervals(code) ==> Intervals(code)[v].start <= Intervals(code)[v].end
  {
    FromEndLate(code, 0);
  }

  /** The allocator for a graph: liveness first, then the scan over its intervals. */
  method AllocateRegisters(code: Code, numRegs: nat) returns (allocator: RegAllocator)
    requires ValidCode(code) && numRegs > 0
    ensures Complete(Intervals(code), numRegs, allocator.sorted, allocator.locations)
  {
    var analyzer := new LivenessAnalyzer(code);
    IntervalsAreOrdered(code);
    allocator := new RegAllocator(numRegs, analyzer.liveIntervals);
  }
}
