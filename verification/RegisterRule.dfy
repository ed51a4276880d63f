/** The allocation rule without its queue: who gets a register and who is spilled, from ranges and visits. */
module RegisterRule {
  import opened FiniteSets
  import opened LinearScan

  /** `a` is visited before `b`. */
  ghost predicate Sooner(order: seq<nat>, a: nat, b: nat) {
    exists i, j :: 0 <= i < j < |order| && order[i] == a && order[j] == b
  }

  lemma SoonerStays(order: seq<nat>, v: nat, a: nat, b: nat)
    requires Sooner(order, a, b)
    ensures Sooner(order + [v], a, b)
  {
    var i, j :| 0 <= i < j < |order| && order[i] == a && order[j] == b;
    assert (order + [v])[i] == a && (order + [v])[j] == b;
  }

  lemma NewIsLast(order: seq<nat>, v: nat, a: nat)
    requires a in order
    ensures Sooner(order + [v], a, v)
  {
    var i :| 0 <= i < |order| && order[i] == a;
    assert (order + [v])[i] == a && (order + [v])[|order|] == v;
  }

  /** `a` ends before `b`, or at the same point and is visited before. */
  ghost predicate Ranked(r: Ranges, order: seq<nat>, a: nat, b: nat)
    requires a in r && b in r
  {
    r[a].end < r[b].end || (r[a].end == r[b].end && Sooner(order, a, b))
  }

  // ----- the queue -----

  /** The queue is ordered by end, then by visit. */
  ghost predicate QueueRanked(r: Ranges, order: seq<nat>, active: seq<nat>)
    requires AllIn(r, active)
  {
    active == [] ||
    ((forall a :: a in active[1..] ==> Ranked(r, order, active[0], a)) && QueueRanked(r, order, active[1..]))
  }

  lemma {:induction false} RankedStays(r: Ranges, order: seq<nat>, v: nat, active: seq<nat>)
    requires AllIn(r, active) && QueueRanked(r, order, active)
    ensures QueueRanked(r, order + [v], active)
  {
    if active != [] {
      assert active == [active[0]] + active[1..];
      RankedStays(r, order, v, active[1..]);
      forall a | a in active[1..] ensures Ranked(r, order + [v], active[0], a) {
        if r[active[0]].end == r[a].end {
          SoonerStays(order, v, active[0], a);
        }
      }
    }
  }

  lemma {:induction false} ExpireRanked(r: Ranges, order: seq<nat>, active: seq<nat>, start: nat)
    requires AllIn(r, active) && QueueRanked(r, order, active)
    ensures AllIn(r, Expire(r, active, start)) && QueueRanked(r, order, Expire(r, active, start))
  {
    if active != [] && r[active[0]].end <= start {
      ExpireRanked(r, order, active[1..], start);
    }
  }

  lemma {:induction false} InsertRanked(r: Ranges, order: seq<nat>, active: seq<nat>, v: nat)
    requires v in r && AllIn(r, active) && QueueRanked(r, order, active)
    requires forall a :: a in active ==> Sooner(order, a, v)
    ensures forall a :: a in InsertByEnd(r, active, v) ==> a == v || a in active
    ensures QueueRanked(r, order, InsertByEnd(r, active, v))
  {
    if active == [] || r[active[0]].end > r[v].end {
      assert active != [] ==> active == [active[0]] + active[1..];
      assert ([v] + active)[1..] == active;
    } else {
      assert active == [active[0]] + active[1..];
      InsertRanked(r, order, active[1..], v);
      var rest := InsertByEnd(r, active[1..], v);
      assert ([active[0]] + rest)[1..] == rest;
    }
  }

  lemma {:induction false} FrontRanked(r: Ranges, order: seq<nat>, active: seq<nat>)
    requires AllIn(r, active) && QueueRanked(r, order, active) && active != []
    ensures AllIn(r, active[..|active| - 1]) && QueueRanked(r, order, active[..|active| - 1])
    ensures forall a :: a in active && a != active[|active| - 1] ==> Ranked(r, order, a, active[|active| - 1])
  {
    if |active| > 1 {
      assert active == [active[0]] + active[1..];
      FrontRanked(r, order, active[1..]);
      assert active[..|active| - 1] == [active[0]] + active[1..][..|active| - 2];
      assert active[..|active| - 1][1..] == active[1..][..|active| - 2];
    }
  }

  lemma RunIsStep(r: Ranges, k: nat, order: seq<nat>)
    requires ScanOrder(r, order) && order != []
    ensures var init, v := order[..|order| - 1], order[|order| - 1];
            && ScanOrder(r, init) && v in r && order == init + [v]
            && WellFormed(r, Run(r, k, init)) && Visited(Run(r, k, init), init) && Fresh(Run(r, k, init), v)
            && Run(r, k, order) == Step(r, k, Run(r, k, init), v)
  {
  }

  /** The queue of a run is ordered by end and visit. */
  lemma {:induction false} RunRanked(r: Ranges, k: nat, order: seq<nat>)
    requires ScanOrder(r, order)
    ensures AllIn(r, Run(r, k, order).active) && QueueRanked(r, order, Run(r, k, order).active)
  {
    if order != [] {
      var init, v := order[..|order| - 1], order[|order| - 1];
      RunIsStep(r, k, order);
      RunRanked(r, k, init);
      StepRanked(r, k, init, Run(r, k, init), v);
    } else {
      assert Run(r, k, order).active == [];
    }
  }

  lemma StepRanked(r: Ranges, k: nat, init: seq<nat>, s: Scan, v: nat)
    requires v in r && WellFormed(r, s) && Visited(s, init) && Fresh(s, v) && QueueRanked(r, init, s.active)
    ensures AllIn(r, Step(r, k, s, v).active) && QueueRanked(r, init + [v], Step(r, k, s, v).active)
  {
    StepVisits(r, k, s, init, v);
    var order, t := init + [v], Expired(r, s, r[v].start);
    ExpireLeaves(r, s.active, r[v].start);
    ExpireRanked(r, init, s.active, r[v].start);
    RankedStays(r, init, v, t.active);
    forall a | a in t.active ensures Sooner(order, a, v) {
      NewIsLast(init, v, a);
    }
    if |t.active| != k {
      InsertRanked(r, order, t.active, v);
    } else if LastEndsLater(r, t.active, v) {
      FrontRanked(r, order, t.active);
      InsertRanked(r, order, t.active[..|t.active| - 1], v);
    }
  }

  // ----- the rule -----

  /** The values that own a register when a range starts. */
  ghost function Holders(r: Ranges, inReg: map<nat, nat>, start: nat): set<nat> {
    set a | a in inReg && a in r && r[a].end > start
  }

  ghost predicate IsHeld(inReg: map<nat, nat>, holders: set<nat>, i: nat) {
    exists h :: h in holders && h in inReg && inReg[h] == i
  }

  /** `v` gets the lowest register that no holder owns. */
  ghost predicate TakesLowest(inReg: map<nat, nat>, holders: set<nat>, v: nat, inReg': map<nat, nat>) {
    && (forall a :: a in inReg' <==> a in inReg || a == v)
       && (forall a :: a in inReg && a != v ==> inReg'[a] == inReg[a])
    && !IsHeld(inReg, holders, inReg'[v]) && (forall i: nat :: i < inReg'[v] ==> IsHeld(inReg, holders, i))
  }

  /** `v` gets the register of `x`, which has none any more. */
  ghost predicate TakesFrom(inReg: map<nat, nat>, x: nat, v: nat, inReg': map<nat, nat>) {
    && x in inReg && (forall a :: a in inReg' <==> a == v || (a in inReg && a != x))
    && inReg'[v] == inReg[x] && (forall a :: a in inReg && a != x && a != v ==> inReg'[a] == inReg[a])
  }

  /** Of the holders `x` ends last, and of those that end with it `x` was visited last. */
  ghost predicate EndsLast(r: Ranges, order: seq<nat>, holders: set<nat>, x: nat) {
    && x in holders && x in r && (forall h :: h in holders ==> h in r)
    && forall h :: h in holders && h != x ==> Ranked(r, order, h, x)
  }

  ghost predicate SomeEndsLater(r: Ranges, holders: set<nat>, v: nat)
    requires v in r
  {
    exists h :: h in holders && h in r && r[h].end > r[v].end
  }

  /** What the visit of `v` makes of registers and stack slots. */
  ghost predicate VisitedByRule(r: Ranges, k: nat, order: seq<nat>, v: nat, inReg: map<nat, nat>,
                                onStack: map<nat, nat>, inReg': map<nat, nat>, onStack': map<nat, nat>)
    requires v in r
  {
    var holders := Holders(r, inReg, r[v].start);
    if |holders| < k then TakesLowest(inReg, holders, v, inReg') && onStack' == onStack
    else if SomeEndsLater(r, holders, v) then
      exists x :: EndsLast(r, order, holders, x) && TakesFrom(inReg, x, v, inReg')
        && onStack' == onStack[x := |onStack|]
    else inReg' == inReg && onStack' == onStack[v := |onStack|]
  }

  lemma HoldersAreActive(r: Ranges, k: nat, s: Scan, now: nat, start: nat)
    requires Inv(r, k, s, now) && now <= start
    ensures var t := Expired(r, s, start);
            Elements(t.active) == Holders(r, s.inReg, start) && |t.active| == |Holders(r, s.inReg, start)| <= k
  {
    ExpireLeaves(r, s.active, start);
    var t := Expired(r, s, start);
    QueueSize(r, t.active);
    assert Elements(t.active) == Holders(r, s.inReg, start);
  }

  lemma HeldIsUsed(inReg: map<nat, nat>, active: seq<nat>, i: nat)
    requires forall a :: a in active ==> a in inReg
    ensures IsHeld(inReg, Elements(active), i) <==> i in UsedRegs(active, inReg)
  {
    UsedRegsIff(active, inReg, i);
    if i in UsedRegs(active, inReg) {
      var a :| a in active && inReg[a] == i;
      assert a in Elements(active);
    }
  }

  lemma TakeFreeIsLowest(r: Ranges, k: nat, t: Scan, v: nat)
    requires v in r && WellFormed(r, t) && Fresh(t, v) && |t.active| < k
    ensures TakesLowest(t.inReg, Elements(t.active), v, TakeFree(r, k, t, v).inReg)
  {
    var used := UsedRegs(t.active, t.inReg);
    FreeRegExists(t.active, t.inReg, k);
    LowestFreeIsFree(used, 0, k);
    var reg := LowestFree(used, 0, k);
    forall i: nat ensures IsHeld(t.inReg, Elements(t.active), i) <==> i in used {
      HeldIsUsed(t.inReg, t.active, i);
    }
  }

  lemma LastIsRanked(r: Ranges, order: seq<nat>, active: seq<nat>)
    requires AllIn(r, active) && QueueRanked(r, order, active) && active != []
    ensures EndsLast(r, order, Elements(active), active[|active| - 1])
  {
    FrontRanked(r, order, active);
    assert active[|active| - 1] in active;
  }

  lemma LaterIff(r: Ranges, active: seq<nat>, v: nat)
    requires v in r && AllIn(r, active) && Queue(r, active)
    ensures SomeEndsLater(r, Elements(active), v) <==> LastEndsLater(r, active, v)
  {
    if active != [] {
      LastIsMax(r, active);
      assert active[|active| - 1] in Elements(active);
    }
  }

  lemma AssignIsRule(r: Ranges, k: nat, order: seq<nat>, t: Scan, v: nat, holders: set<nat>)
    requires v in r && WellFormed(r, t) && Fresh(t, v) && QueueRanked(r, order, t.active)
    requires holders == Elements(t.active) && |holders| == |t.active| <= k
    ensures var u := Assign(r, k, t, v);
            if |holders| < k then TakesLowest(t.inReg, holders, v, u.inReg) && u.onStack == t.onStack
            else if SomeEndsLater(r, holders, v) then
              exists x :: EndsLast(r, order, holders, x) && TakesFrom(t.inReg, x, v, u.inReg)
                          && u.onStack == t.onStack[x := |t.onStack|]
            else u.inReg == t.inReg && u.onStack == t.onStack[v := |t.onStack|]
  {
    LaterIff(r, t.active, v);
    if |t.active| < k {
      TakeFreeIsLowest(r, k, t, v);
    } else if LastEndsLater(r, t.active, v) {
      LastIsRanked(r, order, t.active);
      assert TakesFrom(t.inReg, t.active[|t.active| - 1], v, Assign(r, k, t, v).inReg);
    }
  }

  /** Every visit of the scan follows the rule: with a register free the value takes the lowest one; otherwise it
      goes to the stack if no holder ends strictly later, and else takes the register of the holder that ends last,
      of several the one visited last, which goes to the next stack slot. */
  lemma ScanFollowsRule(r: Ranges, k: nat, order: seq<nat>, v: nat)
    requires ScanOrder(r, order + [v])
    ensures v in r && ScanOrder(r, order)
    ensures var s, t := Run(r, k, order), Run(r, k, order + [v]);
            VisitedByRule(r, k, order, v, s.inReg, s.onStack, t.inReg, t.onStack)
  {
    assert (order + [v])[..|order|] == order;
    var s := Run(r, k, order);
    assert order != [] ==> order[|order| - 1] in order;
    RunKeepsInv(r, k, order);
    RunRanked(r, k, order);
    StepVisits(r, k, s, order, v);
    HoldersAreActive(r, k, s, Now(r, order), r[v].start);
    ExpireRanked(r, order, s.active, r[v].start);
    AssignIsRule(r, k, order, Expired(r, s, r[v].start), v, Holders(r, s.inReg, r[v].start));
  }

  // ----- it leaves no choice -----

  lemma NotBothSooner(order: seq<nat>, x: nat, y: nat)
    requires forall i, j :: 0 <= i < |order| && 0 <= j < |order| && order[i] == order[j] ==> i == j
    requires Sooner(order, x, y)
    ensures !Sooner(order, y, x)
  {
  }

  lemma OneVictim(r: Ranges, order: seq<nat>, holders: set<nat>, x: nat, y: nat)
    requires forall i, j :: 0 <= i < |order| && 0 <= j < |order| && order[i] == order[j] ==> i == j
    requires EndsLast(r, order, holders, x) && EndsLast(r, order, holders, y)
    ensures x == y
  {
    if Sooner(order, x, y) {
      NotBothSooner(order, x, y);
    }
  }

  lemma OneLowest(inReg: map<nat, nat>, holders: set<nat>, v: nat, a: map<nat, nat>, b: map<nat, nat>)
    requires v !in inReg && TakesLowest(inReg, holders, v, a) && TakesLowest(inReg, holders, v, b)
    ensures a == b
  {
    assert a[v] == b[v];
  }

  /** Registers and slots after a visit are determined by those before. */
  lemma RuleIsDetermined(r: Ranges, k: nat, order: seq<nat>, v: nat, inReg: map<nat, nat>, onStack: map<nat, nat>,
                         inReg1: map<nat, nat>, onStack1: map<nat, nat>, inReg2: map<nat, nat>, onStack2: map<nat, nat>)
    requires v in r && v !in inReg
    requires forall i, j :: 0 <= i < |order| && 0 <= j < |order| && order[i] == order[j] ==> i == j
    requires VisitedByRule(r, k, order, v, inReg, onStack, inReg1, onStack1)
    requires VisitedByRule(r, k, order, v, inReg, onStack, inReg2, onStack2)
    ensures inReg1 == inReg2 && onStack1 == onStack2
  {
    var holders := Holders(r, inReg, r[v].start);
    if |holders| < k {
      OneLowest(inReg, holders, v, inReg1, inReg2);
    } else if SomeEndsLater(r, holders, v) {
      var x :| EndsLast(r, order, holders, x) && TakesFrom(inReg, x, v, inReg1) && onStack1 == onStack[x := |onStack|];
      var y :| EndsLast(r, order, holders, y) && TakesFrom(inReg, y, v, inReg2) && onStack2 == onStack[y := |onStack|];
      OneVictim(r, order, holders, x, y);
    }
  }
}
