/** What the live sets and intervals mean: path-based liveness. */
module LivenessProofs {
  import opened Graphs
  import opened Ir
  import opened Liveness

  /** The place before instruction `k` of block `b`. */
  datatype Point = Point(b: nat, k: nat)

  ghost predicate IsPoint(code: Code, p: Point) {
    p.b < |code| && p.k <= |code[p.b].insts|
  }

  /** Control can go from `p` to `q` without passing the definition of `v`. Phis define at block entry. */
  ghost predicate Step(code: Code, v: nat, p: Point, q: Point) {
    IsPoint(code, p) && IsPoint(code, q) &&
    if p.k < |code[p.b].insts| then
      q == Point(p.b, p.k + 1) && (code[p.b].insts[p.k].kind.Phi? || code[p.b].insts[p.k].id != v)
    else
      q.k == 0 && q.b in code[p.b].succs && !HasPhi(code[q.b].insts, v)
  }

  /** A phi of these instructions defines `v`. */
  ghost predicate HasPhi(insts: seq<Inst>, v: nat) {
    exists k :: 0 <= k < |insts| && insts[k].kind.Phi? && insts[k].id == v
  }

  /** A phi of these instructions takes `v` when control comes from `pred`. */
  ghost predicate PhiTakes(insts: seq<Inst>, pred: nat, v: nat) {
    exists k, n :: 0 <= k < |insts| && insts[k].kind.Phi? && 0 <= n < |insts[k].entries|
                   && insts[k].entries[n] == PhiEntry(v, pred)
  }

  lemma PhiIdsAre(insts: seq<Inst>, v: nat)
    ensures v in PhiIds(insts) <==> HasPhi(insts, v)
  {
    if HasPhi(insts, v) {
      var k :| 0 <= k < |insts| && insts[k].kind.Phi? && insts[k].id == v;
      assert insts[k] in insts;
    }
  }

  lemma PhiReadsAre(insts: seq<Inst>, pred: nat, v: nat)
    ensures v in PhiReads(insts, pred) <==> PhiTakes(insts, pred, v)
  {
    if PhiTakes(insts, pred, v) {
      var k, n :| 0 <= k < |insts| && insts[k].kind.Phi? && 0 <= n < |insts[k].entries|
                  && insts[k].entries[n] == PhiEntry(v, pred);
      assert insts[k] in insts && insts[k].entries[n] in insts[k].entries;
    }
    if v in PhiReads(insts, pred) {
      var i, e :| i in insts && i.kind.Phi? && e in i.entries && e.bb == pred && e.val == v;
      var k :| 0 <= k < |insts| && insts[k] == i;
      var n :| 0 <= n < |i.entries| && i.entries[n] == e;
      assert insts[k].entries[n] == PhiEntry(v, pred);
    }
  }

  /** A phi of a successor reads `v` when control leaves `b`. The pass does not see phis of successors
      that lie before `b`. */
  ghost predicate ReadOnExit(code: Code, v: nat, b: nat, s: nat)
    requires b < |code|
  {
    s in code[b].succs && b <= s < |code| && PhiTakes(code[s].insts, b, v)
  }

  /** `v` is read at `p`: it is an input of the next instruction, or a phi takes it on the way out of the block. */
  ghost predicate ReadAt(code: Code, v: nat, p: Point) {
    IsPoint(code, p) &&
    if p.k < |code[p.b].insts| then !code[p.b].insts[p.k].kind.Phi? && v in code[p.b].insts[p.k].inputs
    else exists s :: ReadOnExit(code, v, p.b, s)
  }

  /** A way from its first point to a read of `v` that does not pass the definition of `v`. */
  ghost predicate LivePath(code: Code, v: nat, path: seq<Point>) {
    path != [] &&
    if |path| == 1 then ReadAt(code, v, path[0])
    else Step(code, v, path[0], path[1]) && LivePath(code, v, path[1..])
  }

  ghost predicate Live(code: Code, v: nat, p: Point) {
    exists path :: LivePath(code, v, path) && path[0] == p
  }

  /** A live path along which the block order only increases. */
  ghost predicate ForwardPath(code: Code, v: nat, path: seq<Point>) {
    path != [] &&
    if |path| == 1 then ReadAt(code, v, path[0])
    else
      Step(code, v, path[0], path[1]) && ForwardPath(code, v, path[1..])
      && (path[0].k < |code[path[0].b].insts| || path[0].b < path[1].b)
  }

  ghost predicate ForwardLive(code: Code, v: nat, p: Point) {
    exists path :: ForwardPath(code, v, path) && path[0] == p
  }

  // ----- the live sets are forward liveness -----

  lemma ExtendForward(code: Code, v: nat, p: Point, q: Point)
    requires Step(code, v, p, q) && (p.k < |code[p.b].insts| || p.b < q.b)
    requires ForwardLive(code, v, q)
    ensures ForwardLive(code, v, p)
  {
    var path :| ForwardPath(code, v, path) && path[0] == q;
    assert ([p] + path)[1..] == path;
    assert ForwardPath(code, v, [p] + path);
  }

  lemma ReadIsForwardLive(code: Code, v: nat, p: Point)
    requires ReadAt(code, v, p)
    ensures ForwardLive(code, v, p)
  {
    assert ForwardPath(code, v, [p]);
  }

  /** Everything in a computed live set is read further on. */
  lemma {:induction false} LiveAtIsForwardLive(code: Code, b: nat, k: nat, v: nat)
    requires ValidCode(code) && b < |code| && k <= |code[b].insts|
    requires v in LiveAt(code, b, k)
    ensures ForwardLive(code, v, Point(b, k))
    decreases |code| - b, 1, |code[b].insts| - k
  {
    if k == |code[b].insts| {
      OutIsForwardLive(code, b, |code[b].succs|, v);
    } else {
      var i := code[b].insts[k];
      if v in i.Operands() {
        ReadIsForwardLive(code, v, Point(b, k));
      } else {
        LiveAtIsForwardLive(code, b, k + 1, v);
        ExtendForward(code, v, Point(b, k), Point(b, k + 1));
      }
    }
  }

  lemma {:induction false} OutIsForwardLive(code: Code, b: nat, n: nat, v: nat)
    requires ValidCode(code) && b < |code| && n <= |code[b].succs|
    requires v in OutOf(code, b, n)
    ensures ForwardLive(code, v, Point(b, |code[b].insts|))
    decreases |code| - b, 0, n
  {
    var s := code[b].succs[n - 1];
    var p := Point(b, |code[b].insts|);
    assert s in code[b].succs;
    if v in OutOf(code, b, n - 1) {
      OutIsForwardLive(code, b, n - 1, v);
    } else if v in PhiReads(code[s].insts, b) {
      PhiReadsAre(code[s].insts, b, v);
      assert ReadOnExit(code, v, b, s);
      ReadIsForwardLive(code, v, p);
    } else {
      LiveAtIsForwardLive(code, s, 0, v);
      PhiIdsAre(code[s].insts, v);
      ExtendForward(code, v, p, Point(s, 0));
    }
  }

  /** Everything read along a forward path is in the computed live set. */
  lemma {:induction false} ForwardLiveIsLiveAt(code: Code, v: nat, path: seq<Point>)
    requires ValidCode(code) && ForwardPath(code, v, path)
    ensures IsPoint(code, path[0]) && v in LiveAt(code, path[0].b, path[0].k)
  {
    var p := path[0];
    if |path| == 1 {
      if p.k == |code[p.b].insts| {
        var s: nat :| ReadOnExit(code, v, p.b, s);
        var n :| 0 <= n < |code[p.b].succs| && code[p.b].succs[n] == s;
        PhiReadsAre(code[s].insts, p.b, v);
        OutHas(code, p.b, n, |code[p.b].succs|, v);
      }
    } else {
      ForwardLiveIsLiveAt(code, v, path[1..]);
      var q := path[1];
      if p.k == |code[p.b].insts| {
        var n :| 0 <= n < |code[p.b].succs| && code[p.b].succs[n] == q.b;
        PhiIdsAre(code[q.b].insts, v);
        OutHas(code, p.b, n, |code[p.b].succs|, v);
      }
    }
  }

  lemma {:induction false} OutHas(code: Code, b: nat, m: nat, n: nat, v: nat)
    requires ValidCode(code) && b < |code| && m < n <= |code[b].succs|
    requires var s := code[b].succs[m];
             b <= s && (v in PhiReads(code[s].insts, b) || (b < s && v in LiveIn(code, s)))
    ensures v in OutOf(code, b, n)
    decreases n
  {
    if m < n - 1 {
      OutHas(code, b, m, n - 1, v);
    }
  }

  /** The live set kept for a point holds exactly the values read along some forward path. */
  lemma LiveAtIffForwardLive(code: Code, p: Point, v: nat)
    requires ValidCode(code) && IsPoint(code, p)
    ensures v in LiveAt(code, p.b, p.k) <==> ForwardLive(code, v, p)
  {
    if v in LiveAt(code, p.b, p.k) {
      LiveAtIsForwardLive(code, p.b, p.k, v);
    }
    if ForwardLive(code, v, p) {
      var path :| ForwardPath(code, v, path) && path[0] == p;
      ForwardLiveIsLiveAt(code, v, path);
    }
  }

  // ----- SSA and loop structure -----

  /** The definition at `d` has happened when control is at `p`. */
  ghost predicate DefBefore(code: Code, d: Point, p: Point)
    requires IsDef(code, d)
  {
    if d.b == p.b then code[d.b].insts[d.k].kind.Phi? || d.k < p.k else Dominates(Cfg(code), 0, d.b, p.b)
  }

  ghost predicate IsDef(code: Code, d: Point) {
    d.b < |code| && d.k < |code[d.b].insts|
  }

  /** SSA: `defs` is the one place where each value is defined; every read comes after it. */
  ghost predicate Ssa(code: Code, defs: map<nat, Point>) {
    && (forall b, k :: 0 <= b < |code| && 0 <= k < |code[b].insts| ==>
          code[b].insts[k].id in defs && defs[code[b].insts[k].id] == Point(b, k))
    && (forall v :: v in defs ==> IsDef(code, defs[v]) && code[defs[v].b].insts[defs[v].k].id == v)
    && (forall v, p :: ReadAt(code, v, p) ==>
          v in defs && DefBefore(code, defs[v], p) && code[defs[v].b].insts[defs[v].k].ProducesValue())
  }

  /** The linear order keeps every loop together: an edge back goes from the run of a reducible loop to
      its header, runs nest, and a header dominates its run. */
  ghost predicate LoopsContiguous(code: Code) {
    && (forall b, n :: 0 <= b < |code| && 0 <= n < |code[b].succs| && code[b].succs[n] <= b ==>
          IsHeader(code, code[b].succs[n]) && b <= code[code[b].succs[n]].loop.last)
    && (forall h: nat, g: nat :: InRun(code, h, g) && IsHeader(code, g) ==> code[g].loop.last <= code[h].loop.last)
    && (forall h: nat, b: nat :: InRun(code, h, b) ==> Dominates(Cfg(code), 0, h, b))
    && (forall b :: 0 <= b < |code| ==> Reachable(Cfg(code), 0, b))
  }

  /** `h` heads a reducible loop and `b` lies in its run. */
  ghost predicate InRun(code: Code, h: nat, b: nat) {
    h <= b < |code| && IsHeader(code, h) && b <= code[h].loop.last
  }

  ghost predicate Ascending(path: seq<nat>) {
    |path| <= 1 || (Ascending(path[..|path| - 1]) && path[|path| - 2] < path[|path| - 1])
  }

  lemma {:induction false} AscendingIsBelow(path: seq<nat>)
    requires Ascending(path) && path != []
    ensures forall b :: b in path ==> b <= path[|path| - 1]
    ensures forall j :: 0 <= j < |path| - 1 ==> path[j] < path[|path| - 1]
  {
    if |path| > 1 {
      var init := path[..|path| - 1];
      assert path == init + [path[|path| - 1]];
      AscendingIsBelow(init);
    }
  }

  /** A prefix of an ascending entry path is one. */
  lemma {:induction false} Prefix(code: Code, path: seq<nat>, b: nat) returns (front: seq<nat>)
    requires IsPath(Cfg(code), path) && Ascending(path) && b in path
    ensures IsPath(Cfg(code), front) && Ascending(front) && front[|front| - 1] == b && front[0] == path[0]
  {
    if path[|path| - 1] == b {
      front := path;
    } else {
      assert path == path[..|path| - 1] + [path[|path| - 1]];
      front := Prefix(code, path[..|path| - 1], b);
    }
  }

  /** Every block is reached by a path along which the block order only increases. */
  lemma {:induction false} AscendingEntry(code: Code, b: nat, path: seq<nat>) returns (up: seq<nat>)
    requires ValidCode(code) && LoopsContiguous(code) && EntryPath(Cfg(code), 0, path, b)
    ensures EntryPath(Cfg(code), 0, up, b) && Ascending(up)
    decreases |path|
  {
    if |path| == 1 {
      up := path;
    } else {
      var a := path[|path| - 2];
      assert IsPath(Cfg(code), path[..|path| - 1]) && a == path[..|path| - 1][|path| - 2];
      var n :| 0 <= n < |code[a].succs| && code[a].succs[n] == b;
      up := AscendingEntry(code, a, path[..|path| - 1]);
      if a < b {
        assert (up + [b])[..|up|] == up;
        up := up + [b];
      } else {
        assert InRun(code, b, a);
        up := Prefix(code, up, b);
      }
    }
  }

  lemma AscendingTo(code: Code, b: nat) returns (up: seq<nat>)
    requires ValidCode(code) && LoopsContiguous(code) && b < |code|
    ensures EntryPath(Cfg(code), 0, up, b) && Ascending(up)
  {
    assert Reachable(Cfg(code), 0, b);
    var path :| EntryPath(Cfg(code), 0, path, b);
    up := AscendingEntry(code, b, path);
  }

  /** A dominator comes earlier in the order. */
  lemma DominatorIsEarlier(code: Code, d: nat, b: nat)
    requires ValidCode(code) && LoopsContiguous(code) && b < |code|
    requires Dominates(Cfg(code), 0, d, b) && d != b
    ensures d < b
  {
    var up := AscendingTo(code, b);
    AscendingIsBelow(up);
  }

  /** What dominates a block, other than the block itself, dominates its predecessors. */
  lemma DominatesPredecessor(code: Code, d: nat, b: nat, s: nat)
    requires b < |code| && s < |code| && s in code[b].succs
    requires Dominates(Cfg(code), 0, d, s) && d != s
    ensures Dominates(Cfg(code), 0, d, b)
  {
    forall path | EntryPath(Cfg(code), 0, path, b) ensures d in path {
      assert (path + [s])[..|path|] == path;
      assert EntryPath(Cfg(code), 0, path + [s], s);
    }
  }

  /** Where a value is live its definition has happened. */
  lemma {:induction false} LiveAfterDef(code: Code, defs: map<nat, Point>, v: nat, path: seq<Point>)
    requires Ssa(code, defs) && LivePath(code, v, path)
    ensures v in defs && DefBefore(code, defs[v], path[0])
  {
    if |path| > 1 {
      LiveAfterDef(code, defs, v, path[1..]);
      var d, p, q := defs[v], path[0], path[1];
      if p.k == |code[p.b].insts| {
        if d.b != q.b && d.b != p.b {
          DominatesPredecessor(code, d.b, p.b, q.b);
        }
      }
    }
  }

  lemma {:induction false} ForwardIsLive(code: Code, v: nat, path: seq<Point>)
    requires ForwardPath(code, v, path)
    ensures LivePath(code, v, path)
  {
    if |path| > 1 {
      ForwardIsLive(code, v, path[1..]);
    }
  }

  /** The block that defines a forward-live value is the block itself or an earlier one. */
  lemma ForwardLiveAfterDef(code: Code, defs: map<nat, Point>, v: nat, p: Point)
    requires ValidCode(code) && LoopsContiguous(code) && Ssa(code, defs) && ForwardLive(code, v, p)
    ensures v in defs && DefBefore(code, defs[v], p) && defs[v].b <= p.b < |code|
  {
    var path :| ForwardPath(code, v, path) && path[0] == p;
    ForwardIsLive(code, v, path);
    LiveAfterDef(code, defs, v, path);
    assert IsPoint(code, p);
    if defs[v].b != p.b {
      DominatorIsEarlier(code, defs[v].b, p.b);
    }
  }

  // ----- loops close the gap -----

  /** `v` is read further on from the header of a loop whose run holds block `b`. */
  ghost predicate CarriedBy(code: Code, v: nat, h: nat, b: nat) {
    InRun(code, h, b) && ForwardLive(code, v, Point(h, 0)) && !HasPhi(code[h].insts, v)
  }

  /** A run is entered only at its header. */
  lemma EntersAtHeader(code: Code, h: nat, b: nat, s: nat)
    requires ValidCode(code) && LoopsContiguous(code)
    requires b < |code| && s in code[b].succs && InRun(code, h, s) && b < h
    ensures s == h
  {
    if s != h {
      var up := AscendingTo(code, b);
      AscendingIsBelow(up);
      assert (up + [s])[..|up|] == up;
      assert EntryPath(Cfg(code), 0, up + [s], s);
      assert false;
    }
  }

  /** Where a value is live it is read along a forward path, or carried around an enclosing loop. */
  lemma {:induction false} LiveIsCarried(code: Code, v: nat, path: seq<Point>) returns (h: nat)
    requires ValidCode(code) && LoopsContiguous(code) && LivePath(code, v, path)
    ensures ForwardLive(code, v, path[0]) || CarriedBy(code, v, h, path[0].b)
  {
    var p := path[0];
    h := 0;
    if |path| == 1 {
      ReadIsForwardLive(code, v, p);
    } else {
      var q := path[1];
      h := LiveIsCarried(code, v, path[1..]);
      if p.k < |code[p.b].insts| {
        if ForwardLive(code, v, q) {
          ExtendForward(code, v, p, q);
        }
      } else {
        var n :| 0 <= n < |code[p.b].succs| && code[p.b].succs[n] == q.b;
        if p.b < q.b {
          if !ForwardLive(code, v, q) && p.b < h {
            EntersAtHeader(code, h, p.b, q.b);
          }
          if ForwardLive(code, v, q) {
            ExtendForward(code, v, p, q);
          }
        } else if ForwardLive(code, v, q) {
          h := q.b;
        }
      }
    }
  }
}
