/** What the scan does with ranges that follow one another. */
module ScanRows {
  import opened LinearScan

  ghost predicate StartsDiffer(r: Ranges, order: seq<nat>)
    requires AllIn(r, order)
  {
    forall u, v :: u in order && v in order && r[u].start == r[v].start ==> u == v
  }

  lemma {:induction false} OrderKnown(r: Ranges, order: seq<nat>)
    requires ScanOrder(r, order)
    ensures AllIn(r, order) && forall v :: v in order ==> r[v].start < r[v].end
  {
    if order != [] {
      var init, last := order[..|order| - 1], order[|order| - 1];
      OrderKnown(r, init);
      assert order == init + [last];
    }
  }

  /** Ranges with different starts are visited in one order only. */
  lemma {:induction false} OneScanOrder(r: Ranges, a: seq<nat>, b: seq<nat>)
    requires ScanOrder(r, a) && ScanOrder(r, b) && (forall v :: v in a <==> v in b)
    requires AllIn(r, a) && StartsDiffer(r, a)
    ensures a == b
  {
    assert b != [] ==> b[0] in b;
    if a != [] {
      var x, y := a[|a| - 1], b[|b| - 1];
      assert x in a && x in b && y in a && y in b;
      var a', b' := a[..|a| - 1], b[..|b| - 1];
      assert a == a' + [x] && b == b' + [y];
      assert x == y;
      forall v: nat ensures v in a' <==> v in b' {
        assert v in a <==> v in a' || v == x;
        assert v in b <==> v in b' || v == x;
      }
      OneScanOrder(r, a', b');
    }
  }

  /** Each range ends before the next one starts. */
  ghost predicate InARow(r: Ranges, order: seq<nat>)
    requires AllIn(r, order)
  {
    forall i :: 0 <= i < |order| - 1 ==> r[order[i]].end <= r[order[i + 1]].start
  }

  /** With nothing active a range gets the first register. */
  lemma StepAlone(r: Ranges, k: nat, s: Scan, v: nat)
    requires v in r && WellFormed(r, s) && Fresh(s, v) && k > 0 && Expire(r, s.active, r[v].start) == []
    ensures Step(r, k, s, v) == Scan([v], s.inReg[v := 0], s.onStack)
  {
    assert InsertByEnd(r, [], v) == [v];
    assert UsedRegs([], s.inReg) == {} && LowestFree({}, 0, k) == 0;
  }

  /** Beside one range in the first register that ends later, it gets the second one, or the first if there is only
      one. */
  lemma StepBeside(r: Ranges, k: nat, s: Scan, v: nat, c: nat)
    requires v in r && WellFormed(r, s) && Fresh(s, v) && k > 0 && c in r && r[v].end < r[c].end
    requires Expire(r, s.active, r[v].start) == [c] && c in s.inReg && s.inReg[c] == 0
    ensures var t := Step(r, k, s, v);
            && t.active == (if k == 1 then [v] else [v, c]) && v in t.inReg && t.inReg[v] == (if k == 1 then 0 else 1)
            && forall u :: u in s.inReg && u != c ==> u in t.inReg && t.inReg[u] == s.inReg[u]
    ensures k > 1 ==> c in Step(r, k, s, v).inReg && Step(r, k, s, v).inReg[c] == 0
  {
    if k == 1 {
      assert [c][..0] == [] && InsertByEnd(r, [], v) == [v];
    } else {
      assert InsertByEnd(r, [c], v) == [v, c];
      assert [c][1..] == [] && UsedRegs([c], s.inReg) == {0};
      assert LowestFree({0}, 1, k) == 1 && LowestFree({0}, 0, k) == 1;
    }
  }

  /** Ranges in a row all get the first register, however many there are. */
  lemma {:induction false} RowSharesRegister(r: Ranges, k: nat, order: seq<nat>)
    requires ScanOrder(r, order) && k > 0 && order != [] && AllIn(r, order) && InARow(r, order)
    ensures Run(r, k, order).active == [order[|order| - 1]]
    ensures forall v :: v in order ==> v in Run(r, k, order).inReg && Run(r, k, order).inReg[v] == 0
  {
    var init, v := order[..|order| - 1], order[|order| - 1];
    assert order == init + [v];
    if init != [] {
      RowSharesRegister(r, k, init);
      RowEnds(r, Run(r, k, init), order);
    }
    StepVisits(r, k, Run(r, k, init), init, v);
    StepAlone(r, k, Run(r, k, init), v);
  }

  lemma RowEnds(r: Ranges, s: Scan, order: seq<nat>)
    requires |order| > 1 && AllIn(r, order) && InARow(r, order)
    requires WellFormed(r, s) && s.active == [order[|order| - 2]]
    ensures Expire(r, s.active, r[order[|order| - 1]].start) == []
  {
    assert r[order[|order| - 2]].end <= r[order[|order| - 1]].start;
    assert s.active[1..] == [];
  }

  /** The ranges behind the first one are in a row and end before it does. */
  ghost predicate RowBeside(r: Ranges, order: seq<nat>)
    requires AllIn(r, order)
  {
    && order != [] && InARow(r, order[1..])
    && forall i :: 1 <= i < |order| ==> r[order[i]].end < r[order[0]].end
  }

  /** What the scan has made of such a row: with one register the long range is on the stack, otherwise it has the
      first and the row shares the second. */
  ghost predicate RowPlaced(k: nat, order: seq<nat>, s: Scan)
    requires |order| > 1
  {
    var c, v := order[0], order[|order| - 1];
    && s.active == (if k == 1 then [v] else [v, c])
    && (k > 1 ==> c in s.inReg && s.inReg[c] == 0)
    && forall u :: u in order[1..] ==> u in s.inReg && s.inReg[u] == if k == 1 then 0 else 1
  }

  lemma FirstTwo(r: Ranges, k: nat, order: seq<nat>)
    requires ScanOrder(r, order) && k > 0 && |order| == 2 && AllIn(r, order) && RowBeside(r, order)
    ensures RowPlaced(k, order, Run(r, k, order))
  {
    var c, v := order[0], order[1];
    assert order[..1] == [c] && [c][..0] == [] && order[1..] == [v] && v in order;
    var start, one := Run(r, k, []), Run(r, k, [c]);
    StepVisits(r, k, start, [], c);
    StepAlone(r, k, start, c);
    StepVisits(r, k, one, [c], v);
    assert r[v].end < r[c].end && Expire(r, [c], r[v].start) == [c];
    StepBeside(r, k, one, v, c);
  }

  lemma {:induction false} RowBesideShares(r: Ranges, k: nat, order: seq<nat>)
    requires ScanOrder(r, order) && k > 0 && |order| > 1 && AllIn(r, order) && RowBeside(r, order)
    ensures RowPlaced(k, order, Run(r, k, order))
  {
    if |order| == 2 {
      FirstTwo(r, k, order);
    } else {
      var init, v := order[..|order| - 1], order[|order| - 1];
      RowFront(r, order);
      RowBesideShares(r, k, init);
      OrderKnown(r, order);
      StepVisits(r, k, Run(r, k, init), init, v);
      RowGoesOn(r, k, order, Run(r, k, init));
    }
  }

  lemma RowFront(r: Ranges, order: seq<nat>)
    requires AllIn(r, order) && RowBeside(r, order) && |order| > 2
    ensures AllIn(r, order[..|order| - 1]) && RowBeside(r, order[..|order| - 1])
  {
    var init := order[..|order| - 1];
    assert order == init + [order[|order| - 1]];
    forall i | 0 <= i < |init[1..]| - 1 ensures r[init[1..][i]].end <= r[init[1..][i + 1]].start {
      assert init[1..][i] == order[1..][i] && init[1..][i + 1] == order[1..][i + 1];
    }
  }

  lemma RowGoesOn(r: Ranges, k: nat, order: seq<nat>, s: Scan)
    requires k > 0 && |order| > 2 && AllIn(r, order) && RowBeside(r, order)
             && order[|order| - 1] !in order[..|order| - 1]
    requires forall v :: v in order ==> r[v].start < r[v].end
    requires WellFormed(r, s) && RowPlaced(k, order[..|order| - 1], s) && Fresh(s, order[|order| - 1])
    ensures RowPlaced(k, order, Step(r, k, s, order[|order| - 1]))
  {
    var init, v, c := order[..|order| - 1], order[|order| - 1], order[0];
    assert order[1..] == init[1..] + [v] && c in init;
    RowLeaves(r, k, order, s);
    if k == 1 {
      StepAlone(r, k, s, v);
    } else {
      StepBeside(r, k, s, v, c);
    }
    assert c !in init[1..];
  }

  lemma RowLeaves(r: Ranges, k: nat, order: seq<nat>, s: Scan)
    requires k > 0 && |order| > 2 && AllIn(r, order) && RowBeside(r, order)
    requires forall v :: v in order ==> r[v].start < r[v].end
    requires WellFormed(r, s) && RowPlaced(k, order[..|order| - 1], s)
    ensures Expire(r, s.active, r[order[|order| - 1]].start) == if k == 1 then [] else [order[0]]
  {
    var v, u, c := order[|order| - 1], order[|order| - 2], order[0];
    assert order[1..][|order| - 3] == u && order[1..][|order| - 2] == v && v in order;
    assert r[u].end <= r[v].start < r[v].end < r[c].end;
    assert s.active[1..] == if k == 1 then [] else [c];
    assert Expire(r, [c], r[v].start) == [c];
  }
}
