/** What the dominator builder computes, and when that is dominance. */
module DomSpec {
  // Nodes are named by their DFS time. The builder keeps as parent of a node the node discovered just
  // before it, so its forest is always a piece of the chain `n - 1 -> n - 2 -> ... -> 0`.

  import opened Graphs

  /** `preds[t]`: the predecessors of the node with time `t`. */
  ghost predicate ValidPreds(preds: seq<seq<nat>>) {
    forall t, j :: 0 <= t < |preds| && 0 <= j < |preds[t]| ==> preds[t][j] < |preds|
  }

  /** Every node but the first was discovered from an earlier one. */
  ghost predicate Discovered(preds: seq<seq<nat>>) {
    forall t :: 0 < t < |preds| ==> HasEarlierPred(preds, t)
  }

  ghost predicate HasEarlierPred(preds: seq<seq<nat>>, t: nat)
    requires t < |preds|
  {
    exists j :: 0 <= j < |preds[t]| && preds[t][j] < t
  }

  function Min(a: nat, b: nat): nat { if b < a then b else a }

  /** The semidominator of `t`. */
  function Sdom(preds: seq<seq<nat>>, t: nat): nat
    requires ValidPreds(preds) && t < |preds|
    decreases |preds| - t, 0, |preds[t]| + 1
  {
    SdomFrom(preds, t, |preds[t]|)
  }

  /** ... from its first `j` predecessors: an earlier one counts with its time, a later one with the least
      semidominator on the chain down to it. */
  function SdomFrom(preds: seq<seq<nat>>, t: nat, j: nat): nat
    requires ValidPreds(preds) && t < |preds| && j <= |preds[t]|
    decreases |preds| - t, 0, j
  {
    if j == 0 then t
    else
      var p := preds[t][j - 1];
      Min(SdomFrom(preds, t, j - 1), if p <= t then p else ChainMin(preds, t + 1, p))
  }

  function ChainMin(preds: seq<seq<nat>>, lo: nat, hi: nat): nat
    requires ValidPreds(preds) && lo <= hi < |preds|
    decreases |preds| - lo, 1, hi - lo
  {
    if lo == hi then Sdom(preds, lo) else Min(ChainMin(preds, lo, hi - 1), Sdom(preds, hi))
  }

  /** The node of least semidominator in `lo .. hi`, the last one if several. */
  function ArgMin(preds: seq<seq<nat>>, lo: nat, hi: nat): (r: nat)
    requires ValidPreds(preds) && lo <= hi < |preds|
    ensures lo <= r <= hi
    decreases hi - lo
  {
    if lo == hi then lo
    else
      var r := ArgMin(preds, lo, hi - 1);
      if Sdom(preds, hi) <= Sdom(preds, r) then hi else r
  }

  lemma {:induction false} ArgMinIsNearest(preds: seq<seq<nat>>, lo: nat, hi: nat, y: nat)
    requires ValidPreds(preds) && lo <= y <= hi < |preds|
    ensures Sdom(preds, ArgMin(preds, lo, hi)) <= Sdom(preds, y)
    ensures ArgMin(preds, lo, hi) < y ==> Sdom(preds, ArgMin(preds, lo, hi)) < Sdom(preds, y)
    decreases hi - lo
  {
    if y < hi {
      ArgMinIsNearest(preds, lo, hi - 1, y);
    }
  }

  lemma {:induction false} SdomIsBelow(preds: seq<seq<nat>>, t: nat, j: nat)
    requires ValidPreds(preds) && t < |preds| && j <= |preds[t]|
    ensures SdomFrom(preds, t, j) <= t
    ensures forall i :: 0 <= i < j && preds[t][i] <= t ==> SdomFrom(preds, t, j) <= preds[t][i]
    ensures forall i :: 0 <= i < j && preds[t][i] > t ==>
        SdomFrom(preds, t, j) <= ChainMin(preds, t + 1, preds[t][i])
  {
    if j > 0 {
      SdomIsBelow(preds, t, j - 1);
    }
  }

  /** The first value stored for a node: its semidominator if that equals the least one on the chain from
      its semidominator to it, else the node where the least one is. The chain includes its lower end. */
  function FirstIdom(preds: seq<seq<nat>>, v: nat): nat
    requires ValidPreds(preds) && v < |preds|
  {
    SdomIsBelow(preds, v, |preds[v]|);
    var u := ArgMin(preds, Sdom(preds, v), v);
    if Sdom(preds, v) == Sdom(preds, u) then Sdom(preds, v) else u
  }

  /** The final value: the first one, or the final value of that node. */
  function Idom(preds: seq<seq<nat>>, v: nat): nat
    requires ValidPreds(preds) && v < |preds|
  {
    SdomIsBelow(preds, v, |preds[v]|);
    var p := FirstIdom(preds, v);
    if v == 0 || p == Sdom(preds, v) then p else Idom(preds, p)
  }

  // ----- shape -----

  lemma SdomIsEarlier(preds: seq<seq<nat>>, v: nat)
    requires ValidPreds(preds) && Discovered(preds) && 0 < v < |preds|
    ensures Sdom(preds, v) < v
  {
    assert HasEarlierPred(preds, v);
    SdomIsBelow(preds, v, |preds[v]|);
  }

  /** Every node but the entry gets an idom that was discovered before it. */
  lemma {:induction false} IdomIsEarlier(preds: seq<seq<nat>>, v: nat)
    requires ValidPreds(preds) && Discovered(preds) && 0 < v < |preds|
    ensures Idom(preds, v) < v
  {
    SdomIsEarlier(preds, v);
    var p := FirstIdom(preds, v);
    if p != Sdom(preds, v) && p > 0 {
      IdomIsEarlier(preds, p);
    }
  }

  lemma {:induction false} ChainMinIsLeast(preds: seq<seq<nat>>, lo: nat, hi: nat, y: nat)
    requires ValidPreds(preds) && lo <= y <= hi < |preds|
    ensures ChainMin(preds, lo, hi) <= Sdom(preds, y)
    decreases hi - lo
  {
    if y < hi {
      ChainMinIsLeast(preds, lo, hi - 1, y);
    }
  }

  lemma {:induction false} ChainMinIsTaken(preds: seq<seq<nat>>, lo: nat, hi: nat) returns (y: nat)
    requires ValidPreds(preds) && lo <= hi < |preds|
    ensures lo <= y <= hi && ChainMin(preds, lo, hi) == Sdom(preds, y)
    decreases hi - lo
  {
    y := lo;
    if lo < hi {
      y := ChainMinIsTaken(preds, lo, hi - 1);
      if Sdom(preds, hi) < Sdom(preds, y) {
        y := hi;
      }
    }
  }

  // ----- dominance in the graph with the chain added -----

  ghost predicate PredsOf(g: Graph, preds: seq<seq<nat>>) {
    && ValidGraph(g) && ValidPreds(preds) && |g| == |preds|
    && (forall p, t :: 0 <= p < |g| && 0 <= t < |g| ==> (p in preds[t] <==> t in g[p]))
  }

  /** The graph with an edge from every node to the one discovered next. */
  function Chained(g: Graph): (h: Graph)
    ensures |h| == |g|
    ensures forall t :: 0 <= t < |g| ==> h[t] == if t + 1 < |g| then g[t] + [t + 1] else g[t]
  {
    seq(|g|, t requires 0 <= t < |g| => if t + 1 < |g| then g[t] + [t + 1] else g[t])
  }

  lemma {:induction false} PathInChained(g: Graph, path: seq<nat>)
    requires IsPath(g, path)
    ensures IsPath(Chained(g), path)
  {
    if |path| > 1 {
      PathInChained(g, path[..|path| - 1]);
    }
  }

  /** More edges, fewer dominators. */
  lemma ChainedDominates(g: Graph, d: nat, v: nat)
    requires Dominates(Chained(g), 0, d, v)
    ensures Dominates(g, 0, d, v)
  {
    forall path | EntryPath(g, 0, path, v) ensures d in path {
      PathInChained(g, path);
      assert EntryPath(Chained(g), 0, path, v);
    }
  }

  /** No node in `d + 1 .. v` has a semidominator before `d`. */
  ghost predicate NoneBefore(preds: seq<seq<nat>>, d: nat, v: nat)
    requires ValidPreds(preds) && v < |preds|
  {
    forall w :: d < w <= v ==> d <= Sdom(preds, w)
  }

  /** A path whose inner nodes all come after its last one. */
  ghost predicate Detour(h: Graph, p: nat, w: nat, path: seq<nat>) {
    && IsPath(h, path) && |path| >= 2 && path[0] == p && path[|path| - 1] == w
    && (forall i :: 0 < i < |path| - 1 ==> w < path[i])
  }

  lemma {:induction false} LeastInner(path: seq<nat>, n: nat) returns (i: nat)
    requires 2 <= n <= |path|
    ensures 1 <= i < n && forall k :: 1 <= k < n ==> path[i] <= path[k]
    ensures forall k :: 1 <= k < i ==> path[i] < path[k]
  {
    i := 1;
    if n > 2 {
      i := LeastInner(path, n - 1);
      if path[n - 1] < path[i] {
        i := n - 1;
      }
    }
  }

  lemma SdomOfPred(preds: seq<seq<nat>>, w: nat, q: nat)
    requires ValidPreds(preds) && w < |preds| && q in preds[w]
    ensures q < |preds|
    ensures Sdom(preds, w) <= if q <= w then q else ChainMin(preds, w + 1, q)
  {
    SdomIsBelow(preds, w, |preds[w]|);
    var j :| 0 <= j < |preds[w]| && preds[w][j] == q;
  }

  /** An edge of the chained graph is one of the graph or goes to the node discovered next. */
  lemma EdgeBounds(g: Graph, preds: seq<seq<nat>>, p: nat, w: nat)
    requires PredsOf(g, preds) && Discovered(preds) && p < |g| && w < |g| && w in Chained(g)[p] && p != w
    ensures p < w ==> Sdom(preds, w) <= p
    ensures w < p ==> Sdom(preds, w) <= ChainMin(preds, w + 1, p)
  {
    if w == p + 1 {
      SdomIsEarlier(preds, w);
    } else {
      SdomOfPred(preds, w, p);
    }
  }

  lemma LastEdge(h: Graph, path: seq<nat>)
    requires IsPath(h, path) && |path| >= 2
    ensures path[|path| - 2] < |h| && path[|path| - 1] < |h| && path[|path| - 1] in h[path[|path| - 2]]
  {
    assert IsPath(h, path[..|path| - 1]) && path[|path| - 2] == path[..|path| - 1][|path| - 2];
  }

  /** The start of a detour bounds the semidominator of its end. */
  lemma {:induction false} DetourBounds(g: Graph, preds: seq<seq<nat>>, p: nat, w: nat, path: seq<nat>)
    requires PredsOf(g, preds) && Discovered(preds) && Detour(Chained(g), p, w, path) && p < w
    ensures w < |preds| && Sdom(preds, w) <= p
    decreases |path|
  {
    var q := path[|path| - 2];
    LastEdge(Chained(g), path);
    EdgeBounds(g, preds, q, w);
    if |path| > 2 {
      var i := LeastInner(path, |path| - 1);
      InnerDetour(g, p, w, path, i);
      DetourBounds(g, preds, p, path[i], path[..i + 1]);
      ChainMinIsLeast(preds, w + 1, q, path[i]);
    }
  }

  lemma InnerDetour(g: Graph, p: nat, w: nat, path: seq<nat>, i: nat)
    requires Detour(Chained(g), p, w, path) && 1 <= i < |path| - 1
    requires forall k :: 1 <= k < i ==> path[i] < path[k]
    ensures Detour(Chained(g), p, path[i], path[..i + 1])
  {
    PathFront(Chained(g), path, i + 1);
  }

  // ----- and back: a semidominator is the start of a detour -----

  function Upto(lo: nat, hi: nat): (r: seq<nat>)
    requires lo <= hi
    ensures |r| == hi - lo + 1 && forall i :: 0 <= i < |r| ==> r[i] == lo + i
  {
    seq(hi - lo + 1, i requires 0 <= i => lo + i)
  }

  lemma {:induction false} UptoIsPath(g: Graph, lo: nat, hi: nat)
    requires lo <= hi < |g|
    ensures IsPath(Chained(g), Upto(lo, hi))
    decreases hi - lo
  {
    if lo < hi {
      UptoIsPath(g, lo, hi - 1);
      assert Upto(lo, hi)[..hi - lo] == Upto(lo, hi - 1);
    }
  }

  lemma JoinChain(g: Graph, path: seq<nat>, lo: nat, hi: nat)
    requires IsPath(Chained(g), path) && lo == path[|path| - 1] + 1 && lo <= hi < |g|
    ensures IsPath(Chained(g), path + Upto(lo, hi))
  {
    UptoIsPath(g, lo, hi);
    Appended(Chained(g), path, Upto(lo, hi));
  }

  /** A path may go on along the chain. */
  lemma GoOn(g: Graph, path: seq<nat>, hi: nat) returns (longer: seq<nat>)
    requires IsPath(Chained(g), path) && path[|path| - 1] <= hi < |g|
    ensures IsPath(Chained(g), longer) && |path| <= |longer| && longer[|longer| - 1] == hi
    ensures forall i :: 0 <= i < |path| ==> longer[i] == path[i]
    ensures forall i :: |path| <= i < |longer| ==> path[|path| - 1] < longer[i] <= hi
  {
    var last := path[|path| - 1];
    if last == hi {
      longer := path;
    } else {
      JoinChain(g, path, last + 1, hi);
      longer := path + Upto(last + 1, hi);
    }
  }

  lemma {:induction false} SdomIsTaken(preds: seq<seq<nat>>, t: nat, j: nat) returns (i: nat)
    requires ValidPreds(preds) && t < |preds| && j <= |preds[t]| && SdomFrom(preds, t, j) < t
    ensures i < j
    ensures var p := preds[t][i];
            p != t && SdomFrom(preds, t, j) == if p < t then p else ChainMin(preds, t + 1, p)
  {
    var p := preds[t][j - 1];
    if SdomFrom(preds, t, j - 1) == SdomFrom(preds, t, j) {
      i := SdomIsTaken(preds, t, j - 1);
    } else {
      i := j - 1;
    }
  }

  /** From the semidominator of `w` there is a way to `w` through later nodes only. */
  lemma {:induction false} DetourExists(g: Graph, preds: seq<seq<nat>>, w: nat) returns (path: seq<nat>)
    requires PredsOf(g, preds) && w < |preds| && Sdom(preds, w) < w
    ensures Detour(Chained(g), Sdom(preds, w), w, path)
    decreases |preds| - w
  {
    var i := SdomIsTaken(preds, w, |preds[w]|);
    var p := preds[w][i];
    assert p in preds[w] && w in g[p];
    if p < w {
      path := [p, w];
      assert path[..1] == [p];
    } else {
      var q := ChainMinIsTaken(preds, w + 1, p);
      var front := DetourExists(g, preds, q);
      path := DetourBack(g, preds, w, p, q, front);
    }
  }

  lemma DetourBack(g: Graph, preds: seq<seq<nat>>, w: nat, p: nat, q: nat, front: seq<nat>) returns (path: seq<nat>)
    requires |g| == |preds| && w < q <= p < |g| && w in g[p]
    requires front != [] && Detour(Chained(g), front[0], q, front)
    ensures Detour(Chained(g), front[0], w, path)
  {
    var longer := GoOn(g, front, p);
    Appended(Chained(g), longer, [w]);
    path := longer + [w];
    forall i | 0 < i < |path| - 1 ensures w < path[i] {
      if i < |front| {
        assert longer[i] == front[i];
      }
    }
  }

  /** The semidominator is the least node with a detour to `w`. */
  lemma SdomIsLeastDetour(g: Graph, preds: seq<seq<nat>>, w: nat)
    requires PredsOf(g, preds) && Discovered(preds) && 0 < w < |preds|
    ensures exists path :: Detour(Chained(g), Sdom(preds, w), w, path)
    ensures forall p: nat, path :: p < Sdom(preds, w) ==> !Detour(Chained(g), p, w, path)
  {
    SdomIsEarlier(preds, w);
    var path := DetourExists(g, preds, w);
    forall p: nat, path | p < Sdom(preds, w) ensures !Detour(Chained(g), p, w, path) {
      if Detour(Chained(g), p, w, path) {
        DetourBounds(g, preds, p, w, path);
      }
    }
  }

  // ----- dominance in the chained graph, decided by semidominators -----

  /** The last index of a path at a node before `d`. */
  lemma {:induction false} LastBefore(path: seq<nat>, d: nat) returns (i: nat)
    requires path != [] && path[0] < d
    ensures i < |path| && path[i] < d && forall k :: i < k < |path| ==> d <= path[k]
  {
    if path[|path| - 1] < d {
      i := |path| - 1;
    } else {
      i := LastBefore(path[..|path| - 1], d);
    }
  }

  /** A path around `d` shows a node behind `d` whose semidominator lies before `d`. */
  lemma WayAround(g: Graph, preds: seq<seq<nat>>, d: nat, v: nat, path: seq<nat>)
    requires PredsOf(g, preds) && Discovered(preds) && d <= v < |g|
    requires EntryPath(Chained(g), 0, path, v) && d !in path
    ensures !NoneBefore(preds, d, v)
  {
    assert path[0] in path && path[|path| - 1] in path;
    var i := LastBefore(path, d);
    forall k | i < k < |path| ensures d < path[k] {
      assert path[k] in path;
    }
    PathBack(Chained(g), path, i);
    DetourAfter(g, preds, d, v, path[i..]);
  }

  lemma DetourAfter(g: Graph, preds: seq<seq<nat>>, d: nat, v: nat, path: seq<nat>)
    requires PredsOf(g, preds) && Discovered(preds) && d < v < |g|
    requires IsPath(Chained(g), path) && path[0] < d && path[|path| - 1] == v
    requires forall k :: 1 <= k < |path| ==> d < path[k]
    ensures !NoneBefore(preds, d, v)
  {
    var k := LeastInner(path, |path|);
    LeastIsDetour(Chained(g), path, k);
    DetourBounds(g, preds, path[0], path[k], path[..k + 1]);
  }

  lemma LeastIsDetour(h: Graph, path: seq<nat>, k: nat)
    requires IsPath(h, path) && 1 <= k < |path| && path[0] < path[k]
    requires forall i :: 1 <= i < k ==> path[k] < path[i]
    ensures Detour(h, path[0], path[k], path[..k + 1])
  {
    PathFront(h, path, k + 1);
  }

  /** A detour starting before `d` can be reached from the entry without passing `d`. */
  lemma EntryToDetour(g: Graph, d: nat, w: nat, detour: seq<nat>) returns (path: seq<nat>)
    requires d < w < |g| && detour != [] && detour[0] < d && Detour(Chained(g), detour[0], w, detour)
    ensures EntryPath(Chained(g), 0, path, w)
    ensures forall i :: 0 <= i < |path| ==> path[i] != d
  {
    path := detour;
    if 0 < detour[0] {
      path := BeforeDetour(g, detour);
    }
  }

  lemma BeforeDetour(g: Graph, detour: seq<nat>) returns (path: seq<nat>)
    requires IsPath(Chained(g), detour) && 0 < detour[0] < |g|
    ensures path == Upto(0, detour[0] - 1) + detour
    ensures IsPath(Chained(g), path)
  {
    var last: nat := detour[0] - 1;
    UptoIsPath(g, 0, last);
    var front := Upto(0, last);
    assert front[|front| - 1] == last && detour[0] in Chained(g)[last];
    Appended(Chained(g), front, detour);
    path := front + detour;
  }

  /** A node behind `d` with a semidominator before `d` gives a path around `d`. */
  lemma MakeWayAround(g: Graph, preds: seq<seq<nat>>, d: nat, w: nat, v: nat) returns (path: seq<nat>)
    requires PredsOf(g, preds) && d < w <= v < |g| && Sdom(preds, w) < d
    ensures EntryPath(Chained(g), 0, path, v) && d !in path
  {
    var detour := DetourExists(g, preds, w);
    var front := EntryToDetour(g, d, w, detour);
    path := GoOn(g, front, v);
  }

  /** In the chained graph `d` dominates a later `v` exactly when no node after `d`, up to `v`, has a
      semidominator before `d`. */
  lemma ChainedDominanceIff(g: Graph, preds: seq<seq<nat>>, d: nat, v: nat)
    requires PredsOf(g, preds) && Discovered(preds) && d <= v < |g|
    ensures Dominates(Chained(g), 0, d, v) <==> NoneBefore(preds, d, v)
  {
    if NoneBefore(preds, d, v) {
      forall path | EntryPath(Chained(g), 0, path, v) ensures d in path {
        if d !in path {
          WayAround(g, preds, d, v, path);
        }
      }
    } else {
      var w :| d < w <= v && Sdom(preds, w) < d;
      var path := MakeWayAround(g, preds, d, w, v);
    }
  }

  // ----- when the computed tree is right -----

  /** `d` is the last node before `v` that dominates it in the chained graph. */
  ghost predicate Immediate(preds: seq<seq<nat>>, d: nat, v: nat)
    requires ValidPreds(preds) && v < |preds|
  {
    d < v && NoneBefore(preds, d, v) && forall e :: d < e < v ==> !NoneBefore(preds, e, v)
  }

  /** The lower end of the chain wins the comparison for `v` only if it would win without taking part. */
  ghost predicate RootHarmless(preds: seq<seq<nat>>, v: nat)
    requires ValidPreds(preds) && Discovered(preds) && 0 < v < |preds|
  {
    SdomIsEarlier(preds, v);
    var t := Sdom(preds, v);
    ArgMin(preds, t, v) == t ==> NoneBefore(preds, t, v)
  }

  lemma ExactAt(preds: seq<seq<nat>>, v: nat)
    requires ValidPreds(preds) && Discovered(preds) && 0 < v < |preds|
    requires forall u :: 0 < u < v ==> Immediate(preds, Idom(preds, u), u)
    ensures Immediate(preds, Idom(preds, v), v) <==> RootHarmless(preds, v)
  {
    var t := Sdom(preds, v);
    SdomIsEarlier(preds, v);
    var u := ArgMin(preds, t, v);
    if t > 0 {
      SdomIsEarlier(preds, t);
    }
    ArgMinIsNearest(preds, t, v, t);
    ArgMinIsNearest(preds, t, v, v);
    if u != t && Sdom(preds, u) != t {
      assert FirstIdom(preds, v) == u && Idom(preds, v) == Idom(preds, u);
      var d := Idom(preds, u);
      assert Immediate(preds, d, u);
      forall w | d < w <= v ensures d <= Sdom(preds, w) {
        if u < w {
          ArgMinIsNearest(preds, t, v, w);
        }
      }
      forall e | d < e < v ensures !NoneBefore(preds, e, v) {
        if e < u {
          assert !NoneBefore(preds, e, u);
        } else {
          assert Sdom(preds, v) < e;
        }
      }
    }
  }

  /** The semidominator of `t` is less than that of every later node up to `v`. */
  ghost predicate WinsAlone(preds: seq<seq<nat>>, t: nat, v: nat)
    requires ValidPreds(preds) && t <= v < |preds|
  {
    forall w :: t < w <= v ==> Sdom(preds, t) < Sdom(preds, w)
  }

  /** The nodes after the semidominator up to `v`: `u` has the least semidominator of them, the last one to have it. */
  ghost predicate IsNearestLeast(preds: seq<seq<nat>>, t: nat, v: nat, u: nat)
    requires ValidPreds(preds) && v < |preds|
  {
    && t < u <= v
    && forall w :: t < w <= v ==> Sdom(preds, u) <= Sdom(preds, w) && (u < w ==> Sdom(preds, u) < Sdom(preds, w))
  }

  /** Harm is done exactly if the lower end alone has the least semidominator of the chain and a node behind it has one
      before it. */
  lemma HarmlessIff(preds: seq<seq<nat>>, v: nat)
    requires ValidPreds(preds) && Discovered(preds) && 0 < v < |preds|
    ensures Sdom(preds, v) < v
    ensures RootHarmless(preds, v) <==> (WinsAlone(preds, Sdom(preds, v), v) ==> NoneBefore(preds, Sdom(preds, v), v))
  {
    SdomIsEarlier(preds, v);
    var t := Sdom(preds, v);
    var u := ArgMin(preds, t, v);
    forall w | t <= w <= v ensures Sdom(preds, u) <= Sdom(preds, w) && (u < w ==> Sdom(preds, u) < Sdom(preds, w)) {
      ArgMinIsNearest(preds, t, v, w);
    }
  }

  /** The final value without the comparisons of the forest: the semidominator if the lower end wins alone or no node
      behind it has an earlier one; otherwise that of the nearest node with the least one. */
  lemma IdomIs(preds: seq<seq<nat>>, v: nat, u: nat)
    requires ValidPreds(preds) && Discovered(preds) && 0 < v < |preds|
    ensures Sdom(preds, v) < v
    ensures var t := Sdom(preds, v);
            if WinsAlone(preds, t, v) || NoneBefore(preds, t, v) then Idom(preds, v) == t
            else IsNearestLeast(preds, t, v, u) ==> Idom(preds, v) == Idom(preds, u)
  {
    SdomIsEarlier(preds, v);
    var t := Sdom(preds, v);
    var least := ArgMin(preds, t, v);
    forall w | t <= w <= v
      ensures Sdom(preds, least) <= Sdom(preds, w) && (least < w ==> Sdom(preds, least) < Sdom(preds, w))
    {
      ArgMinIsNearest(preds, t, v, w);
    }
    if t > 0 {
      SdomIsEarlier(preds, t);
    }
    if !(WinsAlone(preds, t, v) || NoneBefore(preds, t, v)) && IsNearestLeast(preds, t, v, u) {
      var w :| t < w <= v && Sdom(preds, w) < t;
      assert least == u;
      assert Sdom(preds, u) < t;
    }
  }

  ghost predicate AllImmediate(preds: seq<seq<nat>>, n: nat)
    requires ValidPreds(preds) && n <= |preds|
  {
    forall v :: 0 < v < n ==> Immediate(preds, Idom(preds, v), v)
  }

  ghost predicate AllHarmless(preds: seq<seq<nat>>, n: nat)
    requires ValidPreds(preds) && Discovered(preds) && n <= |preds|
  {
    forall v :: 0 < v < n ==> RootHarmless(preds, v)
  }

  /** The computed tree is the dominator tree of the chained graph exactly when taking the lower end of
      the chain into the comparison does no harm at any node. */
  lemma {:induction false} IdomsExactIff(preds: seq<seq<nat>>, n: nat)
    requires ValidPreds(preds) && Discovered(preds) && n <= |preds|
    ensures AllImmediate(preds, n) <==> AllHarmless(preds, n)
  {
    if n > 1 {
      IdomsExactIff(preds, n - 1);
      if AllImmediate(preds, n - 1) {
        ExactAt(preds, n - 1);
        NextImmediate(preds, n - 1);
      } else {
        var v :| 0 < v < n - 1 && !Immediate(preds, Idom(preds, v), v);
        var u :| 0 < u < n - 1 && !RootHarmless(preds, u);
      }
    }
  }

  lemma NextImmediate(preds: seq<seq<nat>>, n: nat)
    requires ValidPreds(preds) && Discovered(preds) && 0 < n < |preds|
    ensures AllImmediate(preds, n + 1) <==> AllImmediate(preds, n) && Immediate(preds, Idom(preds, n), n)
    ensures AllHarmless(preds, n + 1) <==> AllHarmless(preds, n) && RootHarmless(preds, n)
  {
  }

  /** `d` is `v` or lies on the way from `v` to the entry in the computed tree. */
  ghost predicate Ancestor(preds: seq<seq<nat>>, d: nat, v: nat)
    requires ValidPreds(preds) && Discovered(preds) && v < |preds|
    decreases v
  {
    d == v || (v > 0 && (IdomIsEarlier(preds, v); Ancestor(preds, d, Idom(preds, v))))
  }

  /** Under that condition whatever the tree reports as dominator dominates in the graph itself. */
  lemma {:induction false} AncestorDominates(g: Graph, preds: seq<seq<nat>>, d: nat, v: nat)
    requires PredsOf(g, preds) && Discovered(preds) && v < |g|
    requires AllHarmless(preds, |preds|) && Ancestor(preds, d, v)
    ensures d <= v && Dominates(g, 0, d, v)
    decreases v
  {
    if d == v {
      forall path | EntryPath(g, 0, path, v) ensures d in path {
        assert path[|path| - 1] in path;
      }
    } else {
      IdomIsEarlier(preds, v);
      IdomsExactIff(preds, |preds|);
      var m := Idom(preds, v);
      AncestorDominates(g, preds, d, m);
      ChainedDominanceIff(g, preds, m, v);
      ChainedDominates(g, m, v);
      forall path | EntryPath(g, 0, path, v) ensures d in path {
        var n := PathPrefix(g, path, m);
        assert EntryPath(g, 0, path[..n], m);
        assert d in path[..n];
      }
    }
  }

  // ----- and when it is not -----

  /** Edges 0-1, 0-2, 1-2, 1-3, 2-3, 2-4, 3-4. */
  function Ladder(): Graph {
    [[1, 2], [2, 3], [3, 4], [4], []]
  }

  function LadderPreds(): seq<seq<nat>> {
    [[], [0], [0, 1], [1, 2], [2, 3]]
  }

  lemma LadderIsValid()
    ensures PredsOf(Ladder(), LadderPreds()) && Discovered(LadderPreds())
  {
    var preds := LadderPreds();
    assert forall t :: 0 < t < 5 ==> preds[t][0] < t;
    forall t | 0 < t < |preds| ensures HasEarlierPred(preds, t) {
      assert preds[t][0] < t;
    }
  }

  lemma LadderSdoms()
    requires ValidPreds(LadderPreds())
    ensures var preds := LadderPreds();
            Sdom(preds, 2) == 0 && Sdom(preds, 3) == 1 && Sdom(preds, 4) == 2
  {
    var preds := LadderPreds();
    assert SdomFrom(preds, 2, 1) == 0 && SdomFrom(preds, 3, 1) == 1 && SdomFrom(preds, 4, 1) == 2;
  }

  lemma LadderIdom()
    requires ValidPreds(LadderPreds())
    ensures ArgMin(LadderPreds(), 2, 4) == 2 && Idom(LadderPreds(), 4) == 2
  {
    var preds := LadderPreds();
    LadderSdoms();
    assert ArgMin(preds, 2, 2) == 2;
    assert ArgMin(preds, 2, 3) == 2;
  }

  lemma LadderWayAround()
    ensures !Dominates(Ladder(), 0, 2, 4)
  {
    var g := Ladder();
    var path := [0, 1, 3, 4];
    assert path[..3] == [0, 1, 3] && path[..3][..2] == [0, 1] && path[..3][..2][..1] == [0];
    assert IsPath(g, [0]);
    assert IsPath(g, [0, 1]);
    assert IsPath(g, [0, 1, 3]);
    assert EntryPath(g, 0, path, 4) && 2 !in path;
  }

  /** There the tree reports 2 as dominator of 4, although 0-1-3-4 avoids it. */
  lemma LadderIsWrong()
    ensures PredsOf(Ladder(), LadderPreds()) && Discovered(LadderPreds())
    ensures Idom(LadderPreds(), 4) == 2 && !Dominates(Ladder(), 0, 2, 4)
    ensures !RootHarmless(LadderPreds(), 4)
  {
    LadderIsValid();
    LadderSdoms();
    LadderIdom();
    LadderWayAround();
    assert !NoneBefore(LadderPreds(), 2, 4) by {
      assert Sdom(LadderPreds(), 3) == 1;
    }
  }
}
