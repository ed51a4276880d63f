/** The register allocator: one pass over the live intervals in order of their start. */
module RegAllocators {
  // The program keeps pointers to the entries of the liveness analysis's table; here such a pointer is
  // the key of the entry. The start and end of an interval are in one table, its location in another.

  import opened Wrappers
  import opened LinearScan
  import opened RegisterPools

  datatype Location = Location(locId: nat, stack: bool)

  type Locations = map<nat, Location>

  /** The recorded locations are those of the scan. */
  ghost predicate Located(locs: Locations, s: Scan) {
    && (forall v :: v in locs <==> v in s.inReg || v in s.onStack)
    && (forall v :: v in s.inReg ==> locs[v] == Location(s.inReg[v], false))
    && (forall v :: v in s.onStack ==> locs[v] == Location(s.onStack[v], true))
  }

  lemma SpillIsLocated(r: Ranges, locs: Locations, s: Scan, v: nat)
    requires Located(locs, s) && WellFormed(r, s) && Fresh(s, v) && v in r && s.active != []
    ensures var spill := s.active[|s.active| - 1];
            && spill in locs && AllIn(r, s.active[..|s.active| - 1])
            && Located(locs[v := Location(locs[spill].locId, false)][spill := Location(|s.onStack|, true)],
                       SpillLast(r, s, v))
  {
    assert s.active[|s.active| - 1] in s.active;
  }

  class RegAllocator {
    /** The number of machine registers. */
    const numRegs: nat
    const regPool: RegisterPool
    /** The live interval of every value that has one. */
    const liveIntervals: Ranges
    /** Where the values visited so far live. */
    var locations: Locations
    /** The values with a non-empty interval by increasing start. */
    var sorted: seq<nat>
    /** The values that own a register now, by increasing end. */
    var active: seq<nat>
    var stackPos: nat

    ghost predicate PoolHolds(s: Scan)
      reads regPool, regPool.regs
    {
      && regPool.Valid() && regPool.regs.Length == numRegs
      && (forall a :: a in s.active ==> a in s.inReg)
      && regPool.Used() == UsedRegs(s.active, s.inReg)
    }

    /** The object state stands for the scan `s`. */
    ghost predicate Represents(s: Scan)
      reads this, regPool, regPool.regs
    {
      active == s.active && PoolHolds(s) && stackPos == |s.onStack| && Located(locations, s)
    }

    constructor (numRegs: nat, liveIntervals: Ranges)
      requires numRegs > 0
      requires forall v :: v in liveIntervals ==> liveIntervals[v].start <= liveIntervals[v].end
      ensures this.numRegs == numRegs && this.liveIntervals == liveIntervals && ScanOrder(liveIntervals, sorted)
      ensures forall v :: v in sorted <==> v in liveIntervals && !liveIntervals[v].Empty()
      ensures Represents(Run(liveIntervals, numRegs, sorted))
    {
      this.numRegs, this.liveIntervals := numRegs, liveIntervals;
      regPool := new RegisterPool(numRegs);
      locations, sorted, active, stackPos := map[], [], [], 0;
      new;
      BuildSortedLiveIntervals();
      RunLinearScan();
    }

    /** Collects the values with a non-empty interval, in whatever order the table lists them, by
        increasing start. */
    method BuildSortedLiveIntervals()
      requires forall v :: v in liveIntervals ==> liveIntervals[v].start <= liveIntervals[v].end
      modifies this`sorted
      ensures ScanOrder(liveIntervals, sorted)
      ensures forall v :: v in sorted <==> v in liveIntervals && !liveIntervals[v].Empty()
    {
      sorted := [];
      var todo := liveIntervals.Keys;
      while todo != {}
        invariant todo <= liveIntervals.Keys
        invariant ScanOrder(liveIntervals, sorted)
        invariant forall v :: v in sorted <==> v in liveIntervals && v !in todo && !liveIntervals[v].Empty()
      {
        var v :| v in todo;
        todo := todo - {v};
        if !liveIntervals[v].Empty() {
          InsertSorted(v);
        }
      }
    }

    method InsertSorted(liveIn: nat)
      requires liveIn in liveIntervals && liveIntervals[liveIn].start < liveIntervals[liveIn].end
      requires ScanOrder(liveIntervals, sorted) && liveIn !in sorted
      modifies this`sorted
      ensures ScanOrder(liveIntervals, sorted)
      ensures forall v :: v in sorted <==> v == liveIn || v in old(sorted)
    {
      ghost var r := liveIntervals;
      ScanOrderKnown(r, sorted);
      var pos := |sorted|;
      while pos > 0 && liveIntervals[liveIn].start < liveIntervals[sorted[pos - 1]].start
        invariant 0 <= pos <= |sorted|
        invariant forall j :: pos <= j < |sorted| ==> sorted[j] in r && r[liveIn].start <= r[sorted[j]].start
      {
        pos := pos - 1;
      }
      InsertKeepsOrder(r, sorted, liveIn, pos);
      sorted := sorted[..pos] + [liveIn] + sorted[pos..];
    }

    lemma {:induction false} ScanOrderKnown(r: Ranges, order: seq<nat>)
      requires ScanOrder(r, order)
      ensures forall j :: 0 <= j < |order| ==> order[j] in r
    {
      if order != [] {
        ScanOrderKnown(r, order[..|order| - 1]);
      }
    }

    lemma {:induction false} InsertKeepsOrder(r: Ranges, order: seq<nat>, v: nat, pos: nat)
      requires ScanOrder(r, order) && v in r && v !in order && r[v].start < r[v].end && pos <= |order|
      requires forall j :: 0 <= j < |order| ==> order[j] in r
      requires forall j :: pos <= j < |order| ==> r[v].start <= r[order[j]].start
      requires pos > 0 ==> r[order[pos - 1]].start <= r[v].start
      ensures ScanOrder(r, order[..pos] + [v] + order[pos..])
    {
      var longer := order[..pos] + [v] + order[pos..];
      if pos == |order| {
        assert longer[..|longer| - 1] == order;
      } else {
        var init := order[..|order| - 1];
        assert longer[..|longer| - 1] == init[..pos] + [v] + init[pos..];
        InsertKeepsOrder(r, init, v, pos);
      }
    }

    /** Visits every interval once, in order of its start. */
    method RunLinearScan()
      requires numRegs > 0 && Represents(Scan([], map[], map[]))
      requires ScanOrder(liveIntervals, sorted)
      modifies this`active, this`stackPos, this`locations, regPool`useCount, regPool.regs
      ensures Represents(Run(liveIntervals, numRegs, sorted))
    {
      assert sorted[..0] == [];
      for i := 0 to |sorted|
        invariant ScanOrder(liveIntervals, sorted[..i])
        invariant Represents(Run(liveIntervals, numRegs, sorted[..i]))
      {
        NextVisit(liveIntervals, numRegs, sorted, i);
        Visit(sorted[i], Run(liveIntervals, numRegs, sorted[..i]));
      }
      assert sorted[..|sorted|] == sorted;
    }

    lemma NextVisit(r: Ranges, k: nat, order: seq<nat>, i: nat)
      requires ScanOrder(r, order) && i < |order|
      ensures ScanOrder(r, order[..i]) && ScanOrder(r, order[..i + 1])
      ensures var s, v := Run(r, k, order[..i]), order[i];
              && v in r && Fresh(s, v) && OwnRegs(s.active, s.inReg) && |s.active| <= k
              && Run(r, k, order[..i + 1]) == Step(r, k, s, v)
    {
      PrefixOrder(r, order, i + 1);
      var seen := order[..i];
      assert order[..i + 1][..i] == seen;
      RunKeepsInv(r, k, seen);
    }

    lemma {:induction false} PrefixOrder(r: Ranges, order: seq<nat>, i: nat)
      requires ScanOrder(r, order) && i <= |order|
      ensures ScanOrder(r, order[..i])
    {
      if i == |order| {
        assert order[..i] == order;
      } else {
        PrefixOrder(r, order[..|order| - 1], i);
        assert order[..|order| - 1][..i] == order[..i];
      }
    }

    /** One iteration of the scan. */
    method Visit(liveIn: nat, ghost s: Scan)
      requires Represents(s) && WellFormed(liveIntervals, s)
      requires OwnRegs(s.active, s.inReg) && |s.active| <= numRegs && numRegs > 0
      requires liveIn in liveIntervals && Fresh(s, liveIn)
      modifies this`active, this`stackPos, this`locations, regPool`useCount, regPool.regs
      ensures Represents(Step(liveIntervals, numRegs, s, liveIn))
    {
      ghost var t := Expired(liveIntervals, s, liveIntervals[liveIn].start);
      ExpireLeaves(liveIntervals, s.active, liveIntervals[liveIn].start);
      ExpireOldIntervals(liveIn, s);
      if |active| == numRegs {
        SpillAtInterval(liveIn, t);
      } else {
        AllocateFor(liveIn, t);
      }
    }

    lemma HeadReg(active: seq<nat>, inReg: map<nat, nat>)
      requires active != [] && active[0] !in active[1..] && forall a :: a in active ==> a in inReg
      requires OwnRegs(active, inReg)
      ensures inReg[active[0]] in UsedRegs(active, inReg) && OwnRegs(active[1..], inReg)
      ensures UsedRegs(active[1..], inReg) == UsedRegs(active, inReg) - {inReg[active[0]]}
    {
      assert active == [active[0]] + active[1..];
      UsedRegsContents(active[1..], inReg);
    }

    /** Frees the registers of the intervals that have ended when `liveIn` starts. */
    method ExpireOldIntervals(liveIn: nat, ghost s: Scan)
      requires Represents(s) && WellFormed(liveIntervals, s) && OwnRegs(s.active, s.inReg)
      requires liveIn in liveIntervals
      modifies this`active, regPool`useCount, regPool.regs
      ensures Represents(Expired(liveIntervals, s, liveIntervals[liveIn].start))
    {
      ghost var start := liveIntervals[liveIn].start;
      while active != []
        invariant AllIn(liveIntervals, active) && Queue(liveIntervals, active)
        invariant (forall a :: a in active ==> a in s.inReg) && OwnRegs(active, s.inReg)
        invariant regPool.Valid() && regPool.Used() == UsedRegs(active, s.inReg)
        invariant Expire(liveIntervals, active, start) == Expire(liveIntervals, s.active, start)
        decreases |active|
      {
        assert active[0] in active && forall a :: a in active[1..] ==> a in active;
        if liveIntervals[active[0]].end > liveIntervals[liveIn].start {
          return;
        }
        HeadReg(active, s.inReg);
        regPool.DeallocateReg(locations[active[0]].locId);
        active := active[1..];
      }
    }

    /** With a register free: the interval takes it and becomes active. */
    method AllocateFor(liveIn: nat, ghost s: Scan)
      requires Represents(s) && WellFormed(liveIntervals, s) && |active| < numRegs
      requires liveIn in liveIntervals && Fresh(s, liveIn)
      modifies this`active, this`locations, regPool`useCount, regPool.regs
      ensures Represents(Assign(liveIntervals, numRegs, s, liveIn))
    {
      FreeRegExists(s.active, s.inReg, numRegs);
      var reg := regPool.AllocateReg();
      locations := locations[liveIn := Location(reg.value, false)];
      active := InsertByEnd(liveIntervals, active, liveIn);
      TakeFreeUses(liveIntervals, numRegs, s, liveIn);
    }

    method MoveToStack(liveIn: nat)
      modifies this`stackPos, this`locations
      ensures stackPos == old(stackPos) + 1
      ensures locations == old(locations[liveIn := Location(stackPos, true)])
    {
      locations := locations[liveIn := Location(stackPos, true)];
      stackPos := stackPos + 1;
    }

    /** With every register taken: the interval with the furthest end goes to the stack. */
    method SpillAtInterval(liveIn: nat, ghost s: Scan)
      requires Represents(s) && WellFormed(liveIntervals, s) && |active| == numRegs > 0
      requires liveIn in liveIntervals && Fresh(s, liveIn)
      modifies this`active, this`stackPos, this`locations
      ensures Represents(Assign(liveIntervals, numRegs, s, liveIn))
    {
      var spill := active[|active| - 1];
      SpillIsLocated(liveIntervals, locations, s, liveIn);
      assert spill in active;
      if liveIntervals[spill].end > liveIntervals[liveIn].end {
        locations := locations[liveIn := Location(locations[spill].locId, false)];
        MoveToStack(spill);
        active := InsertByEnd(liveIntervals, active[..|active| - 1], liveIn);
        SpillLastUses(liveIntervals, s, liveIn);
      } else {
        MoveToStack(liveIn);
      }
    }

    /** The place of `val`, if it has a non-empty interval. */
    method GetLocation(val: nat) returns (loc: Option<Location>)
      requires ScanOrder(liveIntervals, sorted) && Represents(Run(liveIntervals, numRegs, sorted))
      requires forall v :: v in sorted <==> v in liveIntervals && !liveIntervals[v].Empty()
      ensures loc.Some? <==> val in liveIntervals && !liveIntervals[val].Empty()
      ensures loc.Some? ==> val in locations && loc.value == locations[val]
    {
      if val !in liveIntervals || liveIntervals[val].Empty() {
        return None;
      }
      return Some(locations[val]);
    }
  }
}
