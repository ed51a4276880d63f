/** Blocks named by their place in the linear order, and what liveness may then assume. */
module BlockLayouts {
  import opened FiniteSets
  import opened Graphs
  import opened DfsState
  import opened Dfs
  import opened Ir
  import opened LivenessProofs
  import opened LoopSpec
  import opened LoopTrace
  import opened LoopFilling
  import opened LoopOwnership
  import opened LinearOrders

  /** `code` is the graph with every block at its place: edges lead to places, headers carry the place of the
      last block of their loop. */
  ghost predicate LaidOut(g: Graph, l: Loops, order: seq<nat>, code: Code) {
    && |code| == |order|
    && (forall p :: 0 <= p < |order| ==> order[p] < |g| && EdgesAt(g, order, order[p], code[p].succs))
    && (forall p: nat :: p < |order| ==> HeaderAt(l, order, code, p))
  }

  ghost predicate EdgesAt(g: Graph, order: seq<nat>, n: nat, succs: seq<nat>)
    requires n < |g|
  {
    |succs| == |g[n]| && forall j :: 0 <= j < |succs| ==> succs[j] < |order| && order[succs[j]] == g[n][j]
  }

  ghost predicate HeaderAt(l: Loops, order: seq<nat>, code: Code, p: nat)
    requires p < |order| && |code| == |order|
  {
    && (IsHeader(code, p) <==> order[p] in l.latches)
    && (order[p] in l.latches ==>
          l.latches[order[p]] != [] && code[p].loop.last < |order|
            && order[code[p].loop.last] == l.latches[order[p]][0])
  }

  /** A linear order in which no block stands twice. */
  ghost predicate Ordering(g: Graph, entry: nat, l: Loops, body: map<nat, seq<Item>>, order: seq<nat>) {
    && AllFilled(g, entry, l, body) && Nests(l.heads, body) && IsLinearOrder(g, entry, l, body, order)
    && NoRepeat(order)
  }

  lemma {:induction false} OnePlace(order: seq<nat>, i: nat, k: nat)
    requires NoRepeat(order) && i < |order| && k < |order| && order[i] == order[k]
    ensures i == k
  {
    if i < |order| - 1 && k < |order| - 1 {
      OnePlace(order[..|order| - 1], i, k);
    }
  }

  /** The run of a loop, from the place of its header to that of its last block, is the loop. */
  lemma RunIsLoop(g: Graph, entry: nat, l: Loops, body: map<nat, seq<Item>>, order: seq<nat>, a: nat, z: nat, p: nat)
    requires Ordering(g, entry, l, body, order) && a < |order| && z < |order| && p < |order|
    requires order[a] in l.latches && l.latches[order[a]] != [] && order[z] == l.latches[order[a]][0]
    ensures a <= z && (a <= p <= z <==> Member(g, l, order[a], order[p]))
  {
    var h := order[a];
    var run := LoopOrder(l.heads, body, h);
    LastIsLatch(g, entry, l, body, h);
    LoopOrderHas(g, entry, l, body, h, order[p]);
    assert Piece(order, run);
    PieceRange(order, run, a, z, p);
  }

  /** Where nothing stands twice, a piece takes the places from its first to its last element. */
  lemma PieceRange(order: seq<nat>, run: seq<nat>, a: nat, z: nat, p: nat)
    requires NoRepeat(order) && Piece(order, run) && run != [] && a < |order| && z < |order| && p < |order|
    requires order[a] == run[0] && order[z] == run[|run| - 1]
    ensures a <= z && (a <= p <= z <==> order[p] in run)
  {
    var k, last := PieceAt(order, run, p);
    OnePlace(order, k, a);
    OnePlace(order, last, z);
  }

  lemma InRange(order: seq<nat>, run: seq<nat>, k: nat, p: nat)
    requires NoRepeat(order) && k + |run| <= |order| && order[k..k + |run|] == run && p < |order|
    ensures order[p] in run <==> k <= p < k + |run|
  {
    if order[p] in run {
      var i :| 0 <= i < |run| && run[i] == order[p];
      OnePlace(order, k + i, p);
    }
    if k <= p < k + |run| {
      assert run[p - k] == order[p];
    }
  }

  lemma PieceAt(whole: seq<nat>, part: seq<nat>, p: nat) returns (k: nat, last: nat)
    requires NoRepeat(whole) && Piece(whole, part) && part != [] && p < |whole|
    ensures k <= last < |whole| && whole[k] == part[0] && whole[last] == part[|part| - 1]
    ensures whole[p] in part <==> k <= p <= last
  {
    var before, after :| whole == before + part + after;
    k, last := |before|, |before| + |part| - 1;
    InRange(whole, part, k, p);
  }

  // ----- paths -----

  lemma EdgeInGraph(g: Graph, l: Loops, order: seq<nat>, code: Code, p: nat, w: nat)
    requires LaidOut(g, l, order, code) && p < |order| && w in code[p].succs
    ensures w < |order| && order[p] < |g| && order[w] < |g| && order[w] in g[order[p]]
  {
    var j :| 0 <= j < |code[p].succs| && code[p].succs[j] == w;
    assert EdgesAt(g, order, order[p], code[p].succs);
  }

  lemma {:induction false} PathInGraph(g: Graph, l: Loops, order: seq<nat>, code: Code, path: seq<nat>)
    returns (way: seq<nat>)
    requires LaidOut(g, l, order, code) && IsPath(Cfg(code), path)
    ensures IsPath(g, way) && |way| == |path|
    ensures forall i :: 0 <= i < |way| ==> path[i] < |order| && way[i] == order[path[i]]
  {
    if |path| == 1 {
      way := [order[path[0]]];
    } else {
      var front := path[..|path| - 1];
      PathFront(Cfg(code), path, |path| - 1);
      PathEdge(Cfg(code), path, |path| - 2);
      var before := PathInGraph(g, l, order, code, front);
      var w := path[|path| - 1];
      EdgeInGraph(g, l, order, code, path[|path| - 2], w);
      way := before + [order[w]];
      assert IsPath(g, [order[w]]);
      Appended(g, before, [order[w]]);
    }
  }

  lemma {:induction false} PathInCode(g: Graph, l: Loops, order: seq<nat>, code: Code, way: seq<nat>)
    returns (path: seq<nat>)
    requires LaidOut(g, l, order, code) && NoRepeat(order) && IsPath(g, way) && forall u :: u in way ==> u in order
    ensures IsPath(Cfg(code), path) && |path| == |way|
    ensures forall i :: 0 <= i < |path| ==> path[i] < |order| && order[path[i]] == way[i]
  {
    if |way| == 1 {
      assert way[0] in way;
      path := [Place(order, way[0])];
    } else {
      var front := way[..|way| - 1];
      PathFront(g, way, |way| - 1);
      PathEdge(g, way, |way| - 2);
      var before := PathInCode(g, l, order, code, front);
      var u := before[|before| - 1];
      var w := EdgeInCode(g, l, order, code, u, way[|way| - 1]);
      path := before + [w];
      assert IsPath(Cfg(code), [w]);
      Appended(Cfg(code), before, [w]);
    }
  }

  lemma EdgeInCode(g: Graph, l: Loops, order: seq<nat>, code: Code, p: nat, n: nat) returns (w: nat)
    requires LaidOut(g, l, order, code) && p < |order| && order[p] < |g| && n in g[order[p]]
    ensures w < |order| && order[w] == n && w in code[p].succs
  {
    assert EdgesAt(g, order, order[p], code[p].succs);
    var j :| 0 <= j < |g[order[p]]| && g[order[p]][j] == n;
    w := code[p].succs[j];
  }

  lemma DominatesAtPlaces(g: Graph, entry: nat, l: Loops, order: seq<nat>, code: Code, a: nat, p: nat)
    requires LaidOut(g, l, order, code) && NoRepeat(order) && a < |order| && p < |order| && order[0] == entry
    requires Dominates(g, entry, order[a], order[p])
    ensures Dominates(Cfg(code), 0, a, p)
  {
    forall path | EntryPath(Cfg(code), 0, path, p) ensures a in path {
      var way := PathInGraph(g, l, order, code, path);
      assert EntryPath(g, entry, way, order[p]);
      var i :| 0 <= i < |way| && way[i] == order[a];
      OnePlace(order, path[i], a);
    }
  }

  lemma OnEntryPath(g: Graph, entry: nat, way: seq<nat>, n: nat, u: nat)
    requires EntryPath(g, entry, way, n) && u in way
    ensures Reachable(g, entry, u)
  {
    var k := PathPrefix(g, way, u);
    assert EntryPath(g, entry, way[..k], u);
  }

  lemma ReachableAtPlaces(g: Graph, entry: nat, l: Loops, order: seq<nat>, code: Code, p: nat)
    requires LaidOut(g, l, order, code) && NoRepeat(order) && p < |order| && order[0] == entry
    requires forall n :: n in order <==> Reachable(g, entry, n)
    ensures Reachable(Cfg(code), 0, p)
  {
    assert order[p] in order;
    var way :| EntryPath(g, entry, way, order[p]);
    forall u | u in way ensures u in order {
      OnEntryPath(g, entry, way, order[p], u);
    }
    var path := PathInCode(g, l, order, code, way);
    OnePlace(order, path[0], 0);
    OnePlace(order, path[|path| - 1], p);
    assert EntryPath(Cfg(code), 0, path, p);
  }

  // ----- what liveness assumes -----

  /** An edge that does not go forward in the order is a back edge of the search. */
  ghost predicate OnlyBackEdgesGoBack(l: Loops, order: seq<nat>, code: Code) {
    forall p, j :: 0 <= p < |code| && 0 <= j < |code[p].succs| && code[p].succs[j] <= p ==>
      IsBackEdge(l, order, p, code[p].succs[j])
  }

  ghost predicate IsBackEdge(l: Loops, order: seq<nat>, p: nat, t: nat) {
    p < |order| && t < |order| && order[t] in l.latches && order[p] in l.latches[order[t]]
  }

  lemma BackEdgeInRun(g: Graph, entry: nat, l: Loops, body: map<nat, seq<Item>>, order: seq<nat>, code: Code, p: nat,
                      t: nat)
    requires Ordering(g, entry, l, body, order) && LaidOut(g, l, order, code) && IsBackEdge(l, order, p, t)
    ensures InRun(code, t, p)
  {
    assert HeaderAt(l, order, code, t);
    LatchInLoop(g, entry, l, order[t], order[p]);
    RunIsLoop(g, entry, l, body, order, t, code[t].loop.last, p);
  }

  /** The run of a block is its loop. */
  lemma InRunIff(g: Graph, entry: nat, l: Loops, body: map<nat, seq<Item>>, order: seq<nat>, code: Code, h: nat, p: nat)
    requires Ordering(g, entry, l, body, order) && LaidOut(g, l, order, code) && h < |code| && p < |code|
    ensures InRun(code, h, p) <==> order[h] in l.latches && Member(g, l, order[h], order[p])
  {
    assert HeaderAt(l, order, code, h);
    if order[h] in l.latches {
      RunIsLoop(g, entry, l, body, order, h, code[h].loop.last, p);
    }
  }

  lemma LastIsMember(g: Graph, entry: nat, l: Loops, h: nat, x: nat)
    requires Natural(g, entry, l) && x in l.latches && l.latches[x] != [] && Member(g, l, h, x)
    ensures Member(g, l, h, l.latches[x][0])
  {
    LatchInLoop(g, entry, l, x, l.latches[x][0]);
    if x != h {
      InnerInside(g, entry, l, x, h, l.latches[x][0]);
    }
  }

  lemma RunsNest(g: Graph, entry: nat, l: Loops, body: map<nat, seq<Item>>, order: seq<nat>, code: Code, h: nat, x: nat)
    requires Ordering(g, entry, l, body, order) && LaidOut(g, l, order, code) && InRun(code, h, x) && IsHeader(code, x)
    ensures code[x].loop.last <= code[h].loop.last
  {
    assert HeaderAt(l, order, code, h) && HeaderAt(l, order, code, x);
    InRunIff(g, entry, l, body, order, code, h, x);
    var last := code[x].loop.last;
    LastIsMember(g, entry, l, order[h], order[x]);
    InRunIff(g, entry, l, body, order, code, h, last);
  }

  lemma RunIsDominated(g: Graph, entry: nat, l: Loops, body: map<nat, seq<Item>>, order: seq<nat>, code: Code, h: nat,
                       p: nat)
    requires Ordering(g, entry, l, body, order) && LaidOut(g, l, order, code) && InRun(code, h, p)
    ensures Dominates(g, entry, order[h], order[p]) && Dominates(Cfg(code), 0, h, p)
  {
    InRunIff(g, entry, l, body, order, code, h, p);
    if order[p] != order[h] {
      HeaderDominates(g, entry, l, order[h], order[p]);
    } else {
      forall path | EntryPath(g, entry, path, order[p]) ensures order[h] in path {
        assert path[|path| - 1] == order[h];
      }
    }
    DominatesAtPlaces(g, entry, l, order, code, h, p);
  }

  lemma {:induction false} ReportedIsSource(trace: seq<Event>, u: nat, j: nat, t: nat)
    requires BackEdge(u, j, t) in trace
    ensures u in Sources(trace, t)
  {
    var front, e := trace[..|trace| - 1], trace[|trace| - 1];
    if e != BackEdge(u, j, t) {
      ReportedIsSource(front, u, j, t);
    }
  }

  /** An edge to a dominator is a back edge. */
  lemma EdgeToDominator(g: Graph, entry: nat, s: Search, l: Loops, n: nat, t: nat)
    requires Finished(g, entry, s) && SourcesAre(s.trace, l.latches)
    requires Reachable(g, entry, n) && n < |g| && t in g[n] && Dominates(g, entry, t, n)
    ensures t in l.latches && n in l.latches[t]
  {
    var j :| 0 <= j < |g[n]| && g[n][j] == t;
    BackEdgesAreExact(g, entry, s, n, j);
    if t != n {
      DominatorFinishesLater(g, entry, s, t, n);
    }
    assert BackEdge(n, j, t) in multiset(s.trace);
    ReportedIsSource(s.trace, n, j, t);
  }

  lemma EdgeBackIsBackEdge(g: Graph, entry: nat, s: Search, l: Loops, body: map<nat, seq<Item>>, order: seq<nat>,
                           code: Code, p: nat, j: nat)
    requires Ordering(g, entry, l, body, order) && LaidOut(g, l, order, code) && LoopsContiguous(code)
    requires Finished(g, entry, s) && SourcesAre(s.trace, l.latches)
    requires p < |code| && j < |code[p].succs| && code[p].succs[j] <= p
    ensures IsBackEdge(l, order, p, code[p].succs[j])
  {
    var t := code[p].succs[j];
    assert EdgesAt(g, order, order[p], code[p].succs);
    assert InRun(code, t, p);
    RunIsDominated(g, entry, l, body, order, code, t, p);
    assert order[p] in order;
    EdgeToDominator(g, entry, s, l, order[p], order[t]);
  }

  ghost predicate GoesBackInRun(code: Code, b: nat, n: nat)
    requires b < |code| && n < |code[b].succs|
  {
    code[b].succs[n] <= b ==> IsHeader(code, code[b].succs[n]) && b <= code[code[b].succs[n]].loop.last
  }

  ghost predicate EdgesGoBackInRuns(code: Code) {
    forall b, n :: 0 <= b < |code| && 0 <= n < |code[b].succs| ==> GoesBackInRun(code, b, n)
  }

  lemma BackEdgesStayInRuns(g: Graph, entry: nat, l: Loops, body: map<nat, seq<Item>>, order: seq<nat>, code: Code)
    requires Ordering(g, entry, l, body, order) && LaidOut(g, l, order, code) && OnlyBackEdgesGoBack(l, order, code)
    ensures EdgesGoBackInRuns(code)
  {
    forall b, n | 0 <= b < |code| && 0 <= n < |code[b].succs| ensures GoesBackInRun(code, b, n) {
      if code[b].succs[n] <= b {
        assert IsBackEdge(l, order, b, code[b].succs[n]);
        BackEdgeInRun(g, entry, l, body, order, code, b, code[b].succs[n]);
      }
    }
  }

  ghost predicate RunsAreLoops(code: Code) {
    && (forall h: nat, x: nat :: InRun(code, h, x) && IsHeader(code, x) ==> code[x].loop.last <= code[h].loop.last)
    && (forall h: nat, b: nat :: InRun(code, h, b) ==> Dominates(Cfg(code), 0, h, b))
  }

  lemma RunsOfLayout(g: Graph, entry: nat, l: Loops, body: map<nat, seq<Item>>, order: seq<nat>, code: Code)
    requires Ordering(g, entry, l, body, order) && LaidOut(g, l, order, code)
    ensures RunsAreLoops(code)
  {
    forall h: nat, x: nat | InRun(code, h, x) && IsHeader(code, x) ensures code[x].loop.last <= code[h].loop.last {
      RunsNest(g, entry, l, body, order, code, h, x);
    }
    forall h: nat, b: nat | InRun(code, h, b) ensures Dominates(Cfg(code), 0, h, b) {
      RunIsDominated(g, entry, l, body, order, code, h, b);
    }
  }

  lemma AllArePlaced(g: Graph, entry: nat, l: Loops, body: map<nat, seq<Item>>, order: seq<nat>, code: Code)
    requires Ordering(g, entry, l, body, order) && LaidOut(g, l, order, code)
    ensures forall b :: 0 <= b < |code| ==> Reachable(Cfg(code), 0, b)
  {
    forall b | 0 <= b < |code| ensures Reachable(Cfg(code), 0, b) {
      ReachableAtPlaces(g, entry, l, order, code, b);
    }
  }

  lemma ContiguousFrom(code: Code)
    requires EdgesGoBackInRuns(code) && RunsAreLoops(code)
    requires forall b :: 0 <= b < |code| ==> Reachable(Cfg(code), 0, b)
    ensures LoopsContiguous(code)
  {
    forall b, n | 0 <= b < |code| && 0 <= n < |code[b].succs| && code[b].succs[n] <= b
      ensures IsHeader(code, code[b].succs[n]) && b <= code[code[b].succs[n]].loop.last
    {
      assert GoesBackInRun(code, b, n);
    }
  }

  /** Laid out in the linear order, the code is as liveness wants it exactly if no edge goes back in the order
      but the back edges of the search. */
  lemma LayoutServesLiveness(g: Graph, entry: nat, s: Search, l: Loops, body: map<nat, seq<Item>>, order: seq<nat>,
                             code: Code)
    requires Ordering(g, entry, l, body, order) && LaidOut(g, l, order, code)
    requires Finished(g, entry, s) && SourcesAre(s.trace, l.latches)
    ensures LoopsContiguous(code) <==> OnlyBackEdgesGoBack(l, order, code)
  {
    if LoopsContiguous(code) {
      forall p, j | 0 <= p < |code| && 0 <= j < |code[p].succs| && code[p].succs[j] <= p
        ensures IsBackEdge(l, order, p, code[p].succs[j])
      {
        EdgeBackIsBackEdge(g, entry, s, l, body, order, code, p, j);
      }
    }
    if OnlyBackEdgesGoBack(l, order, code) {
      BackEdgesStayInRuns(g, entry, l, body, order, code);
      RunsOfLayout(g, entry, l, body, order, code);
      AllArePlaced(g, entry, l, body, order, code);
      ContiguousFrom(code);
    }
  }

  /** The run of a loop starts at its header. */
  lemma RunsStartAtHeaders(g: Graph, entry: nat, l: Loops, body: map<nat, seq<Item>>, order: seq<nat>, code: Code,
                           h: nat)
    requires Ordering(g, entry, l, body, order) && LaidOut(g, l, order, code) && h < |code| && IsHeader(code, h)
    ensures h <= code[h].loop.last < |code|
  {
    assert HeaderAt(l, order, code, h);
    RunIsLoop(g, entry, l, body, order, h, code[h].loop.last, h);
  }

  /** The layout is code that the analysis takes. */
  lemma LayoutIsValid(g: Graph, entry: nat, l: Loops, body: map<nat, seq<Item>>, order: seq<nat>, code: Code)
    requires Ordering(g, entry, l, body, order) && LaidOut(g, l, order, code)
    requires forall b, k :: 0 <= b < |code| && 0 <= k < |code[b].insts| ==> code[b].insts[k].ArityOk()
    ensures ValidCode(code)
  {
    forall b | 0 <= b < |code| && IsHeader(code, b) ensures b <= code[b].loop.last < |code| {
      RunsStartAtHeaders(g, entry, l, body, order, code, b);
    }
    forall b, n | 0 <= b < |code| && 0 <= n < |code[b].succs| ensures code[b].succs[n] < |code| {
      assert EdgesAt(g, order, order[b], code[b].succs);
    }
  }
}
