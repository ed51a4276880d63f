/** The linear-scan allocation rule on values, and what it guarantees over a whole run. */
module LinearScan {
  // Live ranges are half open: a range that ends where another starts does not overlap it. The scan
  // visits the ranges in order of their start. `RegAllocator.RunLinearScan` is proved equal to `Run`.

  import opened FiniteSets

  datatype Range = Range(start: nat, end: nat) {
    predicate Covers(p: nat) { start <= p < end }
    predicate Disjoint(other: Range) { end <= other.start || other.end <= start }
    predicate Empty() { start == end }
  }

  /** Ranges by value. */
  type Ranges = map<nat, Range>

  /** `active`: values that own a register now, by increasing end. `inReg` and `onStack`: the location
      of every value visited so far. */
  datatype Scan = Scan(active: seq<nat>, inReg: map<nat, nat>, onStack: map<nat, nat>)

  // ----- the rule -----

  predicate AllIn(r: Ranges, vs: seq<nat>) {
    forall v :: v in vs ==> v in r
  }

  /** Drops the values at the front whose range has ended when `start` is reached. */
  function Expire(r: Ranges, active: seq<nat>, start: nat): seq<nat>
    requires AllIn(r, active)
  {
    if active == [] || r[active[0]].end > start then active else Expire(r, active[1..], start)
  }

  /** Insertion behind every value with the same or a smaller end. */
  function InsertByEnd(r: Ranges, active: seq<nat>, v: nat): seq<nat>
    requires v in r && AllIn(r, active)
  {
    if active == [] || r[active[0]].end > r[v].end then [v] + active
    else [active[0]] + InsertByEnd(r, active[1..], v)
  }

  function LowestFree(used: set<nat>, from: nat, k: nat): nat
    decreases k - from
  {
    if from >= k || from !in used then from else LowestFree(used, from + 1, k)
  }

  function UsedRegs(active: seq<nat>, inReg: map<nat, nat>): set<nat>
    requires forall a :: a in active ==> a in inReg
  {
    if active == [] then {} else {inReg[active[0]]} + UsedRegs(active[1..], inReg)
  }

  /** Duplicate free, by increasing end. */
  ghost predicate Queue(r: Ranges, active: seq<nat>)
    requires AllIn(r, active)
  {
    active == [] ||
    (active[0] !in active[1..]
     && (forall a :: a in active[1..] ==> r[active[0]].end <= r[a].end)
     && Queue(r, active[1..]))
  }

  ghost predicate WellFormed(r: Ranges, s: Scan) {
    && (forall a :: a in s.active ==> a in s.inReg)
    && (forall a :: a in s.inReg ==> a in r && a !in s.onStack)
    && (forall a :: a in s.onStack ==> a in r)
    && Queue(r, s.active)
  }

  ghost predicate Fresh(s: Scan, v: nat) {
    v !in s.inReg && v !in s.onStack
  }

  ghost function TakeFree(r: Ranges, k: nat, s: Scan, v: nat): Scan
    requires v in r && WellFormed(r, s)
  {
    Scan(InsertByEnd(r, s.active, v), s.inReg[v := LowestFree(UsedRegs(s.active, s.inReg), 0, k)], s.onStack)
  }

  /** The register of `from` now belongs to `to`. */
  function HandOver(inReg: map<nat, nat>, from: nat, to: nat): (m: map<nat, nat>)
    requires from in inReg && to !in inReg
    ensures to in m && m[to] == inReg[from]
    ensures forall a :: a in m <==> a == to || (a in inReg && a != from)
    ensures forall a :: a in m && a != to ==> m[a] == inReg[a]
  {
    map a | a in inReg.Keys + {to} && a != from :: if a == to then inReg[from] else inReg[a]
  }

  /** The active value with the furthest end goes to the next stack slot; `v` inherits its register. */
  ghost function SpillLast(r: Ranges, s: Scan, v: nat): Scan
    requires v in r && WellFormed(r, s) && s.active != [] && Fresh(s, v)
  {
    var last := |s.active| - 1;
    var spill := s.active[last];
    Scan(InsertByEnd(r, s.active[..last], v),
         HandOver(s.inReg, spill, v),
         s.onStack[spill := |s.onStack|])
  }

  ghost function SpillNew(s: Scan, v: nat): Scan {
    s.(onStack := s.onStack[v := |s.onStack|])
  }

  predicate LastEndsLater(r: Ranges, active: seq<nat>, v: nat)
    requires v in r && AllIn(r, active)
  {
    active != [] && r[active[|active| - 1]].end > r[v].end
  }

  /** The location of `v` once the expired values are gone: a free register, or a spill of the range
      with the furthest end (the new one on a tie). */
  ghost function Assign(r: Ranges, k: nat, s: Scan, v: nat): Scan
    requires v in r && WellFormed(r, s) && Fresh(s, v)
  {
    if |s.active| != k then TakeFree(r, k, s, v)
    else if LastEndsLater(r, s.active, v) then SpillLast(r, s, v)
    else SpillNew(s, v)
  }

  ghost function Expired(r: Ranges, s: Scan, start: nat): (t: Scan)
    requires WellFormed(r, s)
    ensures WellFormed(r, t)
  {
    ExpireLeaves(r, s.active, start);
    s.(active := Expire(r, s.active, start))
  }

  ghost function Step(r: Ranges, k: nat, s: Scan, v: nat): Scan
    requires v in r && WellFormed(r, s) && Fresh(s, v)
  {
    Assign(r, k, Expired(r, s, r[v].start), v)
  }

  /** A scan order: known non-empty ranges, each once, by increasing start. */
  ghost predicate ScanOrder(r: Ranges, order: seq<nat>) {
    order == [] ||
    (var init, v := order[..|order| - 1], order[|order| - 1];
     && ScanOrder(r, init)
     && v !in init && v in r && r[v].start < r[v].end
     && (forall u :: u in init ==> u in r && r[u].start <= r[v].start))
  }

  /** The start of the last range visited. */
  ghost function Now(r: Ranges, order: seq<nat>): nat
    requires ScanOrder(r, order)
  {
    if order == [] then 0 else r[order[|order| - 1]].start
  }

  ghost predicate Visited(s: Scan, order: seq<nat>) {
    forall v :: v in order <==> v in s.inReg || v in s.onStack
  }

  /** The scan of a whole order, from the state with no value visited. */
  ghost function Run(r: Ranges, k: nat, order: seq<nat>): (s: Scan)
    requires ScanOrder(r, order)
    ensures WellFormed(r, s) && Visited(s, order)
  {
    if order == [] then Scan([], map[], map[])
    else
      var init, v := order[..|order| - 1], order[|order| - 1];
      assert order == init + [v];
      var s := Run(r, k, init);
      StepVisits(r, k, s, init, v);
      Step(r, k, s, v)
  }

  lemma StepVisits(r: Ranges, k: nat, s: Scan, seen: seq<nat>, v: nat)
    requires v in r && WellFormed(r, s) && Visited(s, seen) && Fresh(s, v)
    ensures WellFormed(r, Step(r, k, s, v)) && Visited(Step(r, k, s, v), seen + [v])
  {
    var t := Expired(r, s, r[v].start);
    if |t.active| != k {
      InsertKeepsQueue(r, t.active, v);
    } else if LastEndsLater(r, t.active, v) {
      SpillLastWellFormed(r, t, v);
    }
  }

  lemma SpillLastWellFormed(r: Ranges, t: Scan, v: nat)
    requires v in r && WellFormed(r, t) && Fresh(t, v) && t.active != []
    ensures WellFormed(r, SpillLast(r, t, v))
    ensures forall a :: a in SpillLast(r, t, v).inReg || a in SpillLast(r, t, v).onStack
                        <==> a in t.inReg || a in t.onStack || a == v
  {
    LastIsMax(r, t.active);
    InsertKeepsQueue(r, t.active[..|t.active| - 1], v);
  }

  /** What `Expire` leaves: exactly the active values whose range goes beyond `start`. */
  lemma {:induction false} ExpireLeaves(r: Ranges, active: seq<nat>, start: nat)
    requires AllIn(r, active) && Queue(r, active)
    ensures forall a :: a in Expire(r, active, start) <==> a in active && r[a].end > start
    ensures Queue(r, Expire(r, active, start)) && |Expire(r, active, start)| <= |active|
  {
    if active != [] {
      assert active == [active[0]] + active[1..];
      ExpireLeaves(r, active[1..], start);
    }
  }

  lemma {:induction false} InsertKeepsQueue(r: Ranges, active: seq<nat>, v: nat)
    requires v in r && AllIn(r, active) && Queue(r, active) && v !in active
    ensures forall a :: a in InsertByEnd(r, active, v) <==> a == v || a in active
    ensures |InsertByEnd(r, active, v)| == |active| + 1
    ensures Queue(r, InsertByEnd(r, active, v))
  {
    if active == [] || r[active[0]].end > r[v].end {
    } else {
      assert active == [active[0]] + active[1..];
      InsertKeepsQueue(r, active[1..], v);
    }
  }

  /** The last active value ends last; without it the queue has every other value. */
  lemma {:induction false} LastIsMax(r: Ranges, active: seq<nat>)
    requires AllIn(r, active) && Queue(r, active) && active != []
    ensures var init, last := active[..|active| - 1], active[|active| - 1];
            && (forall a :: a in init <==> a in active && a != last)
            && (forall a :: a in active ==> r[a].end <= r[last].end)
            && Queue(r, init)
  {
    var init, last := active[..|active| - 1], active[|active| - 1];
    assert active == [active[0]] + active[1..];
    if |active| > 1 {
      LastIsMax(r, active[1..]);
      assert init == [active[0]] + active[1..][..|active| - 2];
      assert last in active[1..];
    }
  }

  lemma {:induction false} QueueSize(r: Ranges, active: seq<nat>)
    requires AllIn(r, active) && Queue(r, active)
    ensures |Elements(active)| == |active|
  {
    if active != [] {
      assert active == [active[0]] + active[1..];
      QueueSize(r, active[1..]);
      assert Elements(active) == Elements(active[1..]) + {active[0]};
    }
  }

  // ----- safety -----

  ghost predicate SameReg(inReg: map<nat, nat>, a: nat, b: nat) {
    a in inReg && b in inReg && a != b && inReg[a] == inReg[b]
  }

  /** Two values in the same register have disjoint ranges, and registers are below `k`. */
  ghost predicate SafeRegs(r: Ranges, k: nat, inReg: map<nat, nat>) {
    && (forall a :: a in inReg ==> a in r && inReg[a] < k)
    && (forall a, b :: SameReg(inReg, a, b) ==> r[a].Disjoint(r[b]))
  }

  /** The stack slots handed out are exactly `0 .. |onStack|`, one value each. */
  ghost predicate SafeSlots(onStack: map<nat, nat>) {
    && (forall a :: a in onStack ==> onStack[a] < |onStack|)
    && (forall a, b :: a in onStack && b in onStack && a != b ==> onStack[a] != onStack[b])
  }

  ghost predicate OwnRegs(active: seq<nat>, inReg: map<nat, nat>)
    requires forall a :: a in active ==> a in inReg
  {
    forall a, b :: a in active && b in active && a != b ==> inReg[a] != inReg[b]
  }

  /** What holds between visits: the registers of the active values are distinct, every other register
      value has ended, and everything visited started no later than `now`. */
  ghost predicate Inv(r: Ranges, k: nat, s: Scan, now: nat) {
    && WellFormed(r, s) && |s.active| <= k
    && SafeRegs(r, k, s.inReg) && SafeSlots(s.onStack) && OwnRegs(s.active, s.inReg)
    && (forall a :: a in s.inReg && a !in s.active ==> r[a].end <= now)
    && (forall a :: a in s.inReg || a in s.onStack ==> r[a].start <= now)
  }

  lemma {:induction false} LowestFreeIsFree(used: set<nat>, from: nat, k: nat)
    requires from <= k
    ensures LowestFree(used, from, k) <= k
    ensures LowestFree(used, from, k) < k ==> LowestFree(used, from, k) !in used
    ensures forall i :: from <= i < LowestFree(used, from, k) ==> i in used
    decreases k - from
  {
    if from >= k || from !in used {
    } else {
      LowestFreeIsFree(used, from + 1, k);
    }
  }

  lemma {:induction false} UsedRegsContents(active: seq<nat>, inReg: map<nat, nat>)
    requires forall a :: a in active ==> a in inReg
    ensures |UsedRegs(active, inReg)| <= |active|
    ensures forall a :: a in active ==> inReg[a] in UsedRegs(active, inReg)
    ensures forall i :: i in UsedRegs(active, inReg) ==> exists a :: a in active && inReg[a] == i
  {
    if active != [] {
      UsedRegsContents(active[1..], inReg);
      assert active == [active[0]] + active[1..];
    }
  }

  lemma UsedRegsIff(active: seq<nat>, inReg: map<nat, nat>, i: nat)
    requires forall a :: a in active ==> a in inReg
    ensures i in UsedRegs(active, inReg) <==> exists a :: a in active && inReg[a] == i
  {
    UsedRegsContents(active, inReg);
  }

  /** Taking a register adds it to the used ones. */
  lemma TakeFreeUses(r: Ranges, k: nat, s: Scan, v: nat)
    requires v in r && WellFormed(r, s) && Fresh(s, v)
    ensures WellFormed(r, TakeFree(r, k, s, v))
    ensures var t := TakeFree(r, k, s, v);
            UsedRegs(t.active, t.inReg) == UsedRegs(s.active, s.inReg) + {t.inReg[v]}
  {
    InsertKeepsQueue(r, s.active, v);
    var t := TakeFree(r, k, s, v);
    forall i: nat ensures i in UsedRegs(t.active, t.inReg) <==> i in UsedRegs(s.active, s.inReg) + {t.inReg[v]} {
      UsedRegsIff(s.active, s.inReg, i);
      UsedRegsIff(t.active, t.inReg, i);
      assert v in t.active;
      forall a | a in s.active && s.inReg[a] == i ensures a in t.active && t.inReg[a] == i {
      }
    }
  }

  /** Handing a register over leaves the used ones as they are. */
  lemma SpillLastUses(r: Ranges, s: Scan, v: nat)
    requires v in r && WellFormed(r, s) && Fresh(s, v) && s.active != []
    ensures WellFormed(r, SpillLast(r, s, v))
    ensures var t := SpillLast(r, s, v);
            UsedRegs(t.active, t.inReg) == UsedRegs(s.active, s.inReg)
  {
    var spill := s.active[|s.active| - 1];
    LastIsMax(r, s.active);
    InsertKeepsQueue(r, s.active[..|s.active| - 1], v);
    SpillLastWellFormed(r, s, v);
    HandOverUses(s.active, s.inReg, SpillLast(r, s, v).active, spill, v);
  }

  lemma HandOverUses(active: seq<nat>, inReg: map<nat, nat>, active': seq<nat>, spill: nat, v: nat)
    requires spill in active && v !in inReg && forall a :: a in active ==> a in inReg
    requires forall a :: a in active' <==> a == v || (a in active && a != spill)
    ensures forall a :: a in active' ==> a in HandOver(inReg, spill, v)
    ensures UsedRegs(active', HandOver(inReg, spill, v)) == UsedRegs(active, inReg)
  {
    var inReg' := HandOver(inReg, spill, v);
    forall i: nat ensures i in UsedRegs(active', inReg') <==> i in UsedRegs(active, inReg) {
      UsedRegsIff(active, inReg, i);
      UsedRegsIff(active', inReg', i);
      if i in UsedRegs(active, inReg) {
        var a :| a in active && inReg[a] == i;
        assert inReg'[if a == spill then v else a] == i;
      }
    }
  }

  /** With fewer than `k` active values some register below `k` is free. */
  lemma FreeRegExists(active: seq<nat>, inReg: map<nat, nat>, k: nat)
    requires forall a :: a in active ==> a in inReg
    requires |active| < k
    ensures LowestFree(UsedRegs(active, inReg), 0, k) < k
  {
    var used := UsedRegs(active, inReg);
    LowestFreeIsFree(used, 0, k);
    UsedRegsContents(active, inReg);
    if LowestFree(used, 0, k) == k {
      SubsetSize(Below(k), used);
    }
  }

  lemma ExpireKeepsInv(r: Ranges, k: nat, s: Scan, now: nat, start: nat)
    requires Inv(r, k, s, now) && now <= start
    ensures Inv(r, k, Expired(r, s, start), start)
  {
    ExpireLeaves(r, s.active, start);
  }

  lemma TakeFreeKeepsInv(r: Ranges, k: nat, s: Scan, v: nat)
    requires v in r && Inv(r, k, s, r[v].start) && Fresh(s, v) && |s.active| != k
    ensures Inv(r, k, TakeFree(r, k, s, v), r[v].start)
  {
    InsertKeepsQueue(r, s.active, v);
    FreeRegExists(s.active, s.inReg, k);
    LowestFreeIsFree(UsedRegs(s.active, s.inReg), 0, k);
    UsedRegsContents(s.active, s.inReg);
    var m := TakeFree(r, k, s, v).inReg;
    forall a, b | SameReg(m, a, b) ensures r[a].Disjoint(r[b]) {
      if a != v && b != v {
        assert SameReg(s.inReg, a, b);
      }
    }
  }

  lemma NextSlotIsSafe(onStack: map<nat, nat>, v: nat)
    requires SafeSlots(onStack) && v !in onStack
    ensures SafeSlots(onStack[v := |onStack|])
  {
    assert onStack[v := |onStack|].Keys == onStack.Keys + {v};
  }

  /** A register handed over by a value that ends later than `v` stays safe. */
  lemma HandOverIsSafe(r: Ranges, k: nat, s: Scan, spill: nat, v: nat)
    requires v in r && Inv(r, k, s, r[v].start) && Fresh(s, v)
    requires spill in s.active && r[spill].end > r[v].end
    ensures SafeRegs(r, k, HandOver(s.inReg, spill, v))
  {
    var m := HandOver(s.inReg, spill, v);
    forall a, b | SameReg(m, a, b) ensures r[a].Disjoint(r[b]) {
      assert SameReg(s.inReg, if a == v then spill else a, if b == v then spill else b);
    }
  }

  lemma SpillLastKeepsInv(r: Ranges, k: nat, s: Scan, v: nat)
    requires v in r && Inv(r, k, s, r[v].start) && Fresh(s, v)
    requires LastEndsLater(r, s.active, v)
    ensures Inv(r, k, SpillLast(r, s, v), r[v].start)
  {
    var spill := s.active[|s.active| - 1];
    LastIsMax(r, s.active);
    InsertKeepsQueue(r, s.active[..|s.active| - 1], v);
    SpillLastWellFormed(r, s, v);
    NextSlotIsSafe(s.onStack, spill);
    HandOverIsSafe(r, k, s, spill, v);
  }

  lemma SpillNewKeepsInv(r: Ranges, k: nat, s: Scan, v: nat)
    requires v in r && Inv(r, k, s, r[v].start) && Fresh(s, v)
    ensures Inv(r, k, SpillNew(s, v), r[v].start)
  {
    NextSlotIsSafe(s.onStack, v);
  }

  lemma StepKeepsInv(r: Ranges, k: nat, s: Scan, now: nat, v: nat)
    requires Inv(r, k, s, now) && v in r && now <= r[v].start && Fresh(s, v)
    ensures Inv(r, k, Step(r, k, s, v), r[v].start)
  {
    var t := Expired(r, s, r[v].start);
    ExpireKeepsInv(r, k, s, now, r[v].start);
    if |t.active| != k {
      TakeFreeKeepsInv(r, k, t, v);
    } else if LastEndsLater(r, t.active, v) {
      SpillLastKeepsInv(r, k, t, v);
    } else {
      SpillNewKeepsInv(r, k, t, v);
    }
  }

  lemma {:induction false} RunKeepsInv(r: Ranges, k: nat, order: seq<nat>)
    requires ScanOrder(r, order)
    ensures Inv(r, k, Run(r, k, order), Now(r, order))
  {
    if order != [] {
      var init, v := order[..|order| - 1], order[|order| - 1];
      RunKeepsInv(r, k, init);
      StepKeepsInv(r, k, Run(r, k, init), Now(r, init), v);
    }
  }

  /** At the end every visited value has one location; equal registers mean disjoint ranges, and
      stack slots are never shared. */
  lemma RunIsSafe(r: Ranges, k: nat, order: seq<nat>)
    requires ScanOrder(r, order)
    ensures var s := Run(r, k, order);
            && SafeRegs(r, k, s.inReg) && SafeSlots(s.onStack)
            && (forall v :: v in order <==> v in s.inReg || v in s.onStack)
            && (forall v :: v in s.inReg ==> v !in s.onStack)
  {
    RunKeepsInv(r, k, order);
  }

  // ----- optimality -----

  function Covering(r: Ranges, vs: set<nat>, p: nat): set<nat> {
    set v | v in vs && v in r && r[v].Covers(p)
  }

  /** At most `k` ranges of `vs` overlap at any point. */
  ghost predicate Fits(r: Ranges, k: nat, vs: set<nat>) {
    (forall v :: v in vs ==> v in r) && forall p: nat :: |Covering(r, vs, p)| <= k
  }

  lemma SafeRegsFit(r: Ranges, k: nat, inReg: map<nat, nat>)
    requires SafeRegs(r, k, inReg)
    ensures Fits(r, k, inReg.Keys)
  {
    forall p: nat ensures |Covering(r, inReg.Keys, p)| <= k {
      forall x, y | x in Covering(r, inReg.Keys, p) && y in Covering(r, inReg.Keys, p) && inReg[x] == inReg[y]
        ensures x == y
      {
        assert x != y ==> SameReg(inReg, x, y);
      }
      InjectiveBelow(Covering(r, inReg.Keys, p), inReg, k);
    }
  }

  /** `better` is as large as the rival and avoids every value spilled so far. */
  ghost predicate Improved(r: Ranges, k: nat, rival: set<nat>, better: set<nat>, spilled: map<nat, nat>) {
    Fits(r, k, better) && |better| == |rival| && forall b :: b in better ==> b !in spilled
  }

  /** The exchange: `cands` are `k + 1` values that overlap at `now`; `victim` ends last among them.
      A rival that keeps `victim` lacks some other candidate and may take that one instead. */
  lemma Exchange(r: Ranges, k: nat, rival: set<nat>, cands: set<nat>, victim: nat, now: nat, kept: set<nat>)
    returns (better: set<nat>, gained: nat)
    requires Fits(r, k, rival) && Fits(r, k, kept)
    requires (forall c :: c in cands ==> c in r) && |cands| == k + 1 && victim in cands && victim in rival
    requires forall c :: c in cands ==> r[c].Covers(now) && r[c].end <= r[victim].end
    requires forall c :: (c in cands || c in rival) && r[c].start < now ==> c in kept
    ensures gained in cands && gained !in rival
    ensures forall b :: b in better <==> b == gained || (b in rival && b != victim)
    ensures |better| == |rival| && Fits(r, k, better)
  {
    if cands <= rival {
      SubsetSize(cands, Covering(r, rival, now));
      assert false;
    }
    gained :| gained in cands && gained !in rival;
    better := rival - {victim} + {gained};
    forall p: nat ensures |Covering(r, better, p)| <= k {
      var cover := Covering(r, better, p);
      if p < now {
        SubsetSize(cover, Covering(r, kept, p));
      } else if r[gained].Covers(p) {
        SubsetSize(cover, Covering(r, rival, p) - {victim} + {gained});
      } else {
        SubsetSize(cover, Covering(r, rival, p));
      }
    }
  }

  /** Every register is taken when `v` starts. */
  ghost predicate Full(r: Ranges, k: nat, t: Scan, v: nat) {
    && v in r && Inv(r, k, t, r[v].start) && r[v].start < r[v].end && Fresh(t, v)
    && |t.active| == k && forall a :: a in t.active ==> r[a].end > r[v].start
  }

  /** The active values and `v`: `k + 1` values that overlap where `v` starts. */
  lemma Candidates(r: Ranges, k: nat, t: Scan, v: nat) returns (cands: set<nat>)
    requires Full(r, k, t, v)
    ensures |cands| == k + 1 && forall c :: c in cands <==> c == v || c in t.active
    ensures forall c :: c in cands ==> r[c].Covers(r[v].start)
  {
    cands := Elements(t.active) + {v};
    QueueSize(r, t.active);
    assert v !in t.active;
  }

  /** The value given up is the one with the furthest end. */
  lemma VictimEndsLast(r: Ranges, k: nat, t: Scan, v: nat) returns (victim: nat)
    requires Full(r, k, t, v)
    ensures victim == v || victim in t.active
    ensures forall c :: c == v || c in t.active ==> r[c].end <= r[victim].end
    ensures forall b :: b in Assign(r, k, t, v).onStack <==> b in t.onStack || b == victim
  {
    if t.active != [] {
      LastIsMax(r, t.active);
    }
    if LastEndsLater(r, t.active, v) {
      victim := t.active[k - 1];
      assert Assign(r, k, t, v).onStack == t.onStack[victim := |t.onStack|];
    } else {
      victim := v;
      assert Assign(r, k, t, v).onStack == t.onStack[v := |t.onStack|];
    }
  }

  /** With all registers taken, the rival gives up the victim for another candidate, if it has it. */
  lemma FullStepImproves(r: Ranges, k: nat, t: Scan, v: nat, rival: set<nat>, better: set<nat>)
    returns (better': set<nat>)
    requires Full(r, k, t, v)
    requires Improved(r, k, rival, better, t.onStack)
    requires forall b :: b in better && b !in t.inReg ==> r[b].start >= r[v].start
    ensures Improved(r, k, rival, better', Assign(r, k, t, v).onStack)
    ensures forall b :: b in better' ==> b in better || b in t.inReg || b == v
  {
    var victim := VictimEndsLast(r, k, t, v);
    if victim !in better {
      return better;
    }
    var cands := Candidates(r, k, t, v);
    SafeRegsFit(r, k, t.inReg);
    var gained;
    better', gained := Exchange(r, k, better, cands, victim, r[v].start, t.inReg.Keys);
  }

  /** One visit keeps the rival improvable. */
  lemma StepImproves(r: Ranges, k: nat, s: Scan, now: nat, v: nat, rival: set<nat>, better: set<nat>)
    returns (better': set<nat>)
    requires Inv(r, k, s, now) && v in r && now <= r[v].start < r[v].end && Fresh(s, v)
    requires Improved(r, k, rival, better, s.onStack)
    requires forall b :: b in better && b !in s.inReg ==> r[b].start >= r[v].start
    ensures Improved(r, k, rival, better', Step(r, k, s, v).onStack)
    ensures forall b :: b in better' ==> b in better || b in s.inReg || b == v
  {
    var t := Expired(r, s, r[v].start);
    ExpireKeepsInv(r, k, s, now, r[v].start);
    ExpireLeaves(r, s.active, r[v].start);
    if |t.active| != k {
      better' := better;
    } else {
      better' := FullStepImproves(r, k, t, v, rival, better);
    }
  }

  /** After any number of visits a rival can still be turned into one that avoids what was spilled.
      `later`: the values still to come. */
  lemma {:induction false} RunImproves(r: Ranges, k: nat, order: seq<nat>, later: set<nat>, rival: set<nat>)
    returns (better: set<nat>)
    requires ScanOrder(r, order) && Fits(r, k, rival)
    requires forall b :: b in rival ==> b in order || b in later
    requires forall b :: b in later ==> b in r && Now(r, order) <= r[b].start
    ensures Improved(r, k, rival, better, Run(r, k, order).onStack)
    ensures forall b :: b in better ==> b in order || b in later
  {
    if order == [] {
      better := rival;
    } else {
      var init, v := order[..|order| - 1], order[|order| - 1];
      assert order == init + [v];
      assert init != [] ==> init[|init| - 1] in init;
      better := RunImproves(r, k, init, later + {v}, rival);
      RunKeepsInv(r, k, init);
      better := StepImproves(r, k, Run(r, k, init), Now(r, init), v, rival, better);
    }
  }

  /** Spilling is optimal: no set of ranges with at most `k` of them overlapping anywhere is larger
      than the set the scan leaves in registers, and that set is itself such a set. */
  lemma SpillingIsOptimal(r: Ranges, k: nat, order: seq<nat>)
    requires ScanOrder(r, order)
    ensures var kept := Run(r, k, order).inReg.Keys;
            && kept <= Elements(order) && Fits(r, k, kept)
            && forall rival :: rival <= Elements(order) && Fits(r, k, rival) ==> |rival| <= |kept|
  {
    var kept := Run(r, k, order).inReg.Keys;
    RunKeepsInv(r, k, order);
    SafeRegsFit(r, k, Run(r, k, order).inReg);
    forall rival | rival <= Elements(order) && Fits(r, k, rival) ensures |rival| <= |kept| {
      var better := RunImproves(r, k, order, {}, rival);
      SubsetSize(better, kept);
    }
  }

  /** Nothing is spilled exactly when at most `k` of the ranges ever overlap. */
  lemma NoSpillIffFits(r: Ranges, k: nat, order: seq<nat>)
    requires ScanOrder(r, order)
    ensures Run(r, k, order).onStack == map[] <==> Fits(r, k, Elements(order))
  {
    var s := Run(r, k, order);
    SpillingIsOptimal(r, k, order);
    if Fits(r, k, Elements(order)) {
      SubsetSize(s.inReg.Keys, Elements(order));
      assert s.onStack.Keys == {};
    }
    if s.onStack == map[] {
      assert s.inReg.Keys == Elements(order);
    }
  }
}
