/** Dominance in a graph, decided on its search tree, and when the computed tree is right about it. */
module TreeDominance {
  // Nodes are named by their DFS time, as in `DomSpec`.

  import opened Graphs
  import opened DomSpec

  // ----- search trees -----

  /** `par[t]`: the node from which `t` was discovered. */
  ghost predicate ValidTree(par: seq<nat>) {
    forall t :: 0 < t < |par| ==> par[t] < t
  }

  /** `a` is `x` or above it in the search tree. */
  ghost predicate TreeUp(par: seq<nat>, a: nat, x: nat)
    requires ValidTree(par) && x < |par|
    decreases x
  {
    a == x || (x > 0 && TreeUp(par, a, par[x]))
  }

  /** An edge to a later node goes down the tree. */
  ghost predicate EdgeDown(g: Graph, par: seq<nat>, p: nat, w: nat)
    requires ValidTree(par) && |par| == |g|
  {
    p < w < |g| && w in g[p] ==> TreeUp(par, p, w)
  }

  /** What is discovered between a node and one below it is below it too. */
  ghost predicate Between(par: seq<nat>, a: nat, y: nat, x: nat)
    requires ValidTree(par)
  {
    a <= y <= x < |par| && TreeUp(par, a, x) ==> TreeUp(par, a, y)
  }

  ghost predicate SearchTree(g: Graph, par: seq<nat>) {
    && |par| == |g| && ValidTree(par)
    && (forall t :: 0 < t < |g| ==> t in g[par[t]])
    && (forall p, w :: EdgeDown(g, par, p, w))
    && (forall a, y, x :: Between(par, a, y, x))
  }

  lemma {:induction false} TreeUpIsEarlier(par: seq<nat>, a: nat, x: nat)
    requires ValidTree(par) && x < |par| && TreeUp(par, a, x)
    ensures a <= x
    decreases x
  {
    if a != x {
      TreeUpIsEarlier(par, a, par[x]);
    }
  }

  lemma {:induction false} TreeUpTransitive(par: seq<nat>, a: nat, b: nat, x: nat)
    requires ValidTree(par) && b < |par| && x < |par| && TreeUp(par, a, b) && TreeUp(par, b, x)
    ensures TreeUp(par, a, x)
    decreases x
  {
    if b != x {
      TreeUpTransitive(par, a, b, par[x]);
    }
  }

  /** Of two nodes above a third, the earlier one is above the other. */
  lemma {:induction false} TreeUpOrdered(par: seq<nat>, a: nat, b: nat, x: nat)
    requires ValidTree(par) && x < |par| && TreeUp(par, a, x) && TreeUp(par, b, x) && a <= b
    ensures b < |par| && TreeUp(par, a, b)
    decreases x
  {
    TreeUpIsEarlier(par, a, x);
    TreeUpIsEarlier(par, b, x);
    if b != x && a != x {
      TreeUpOrdered(par, a, b, par[x]);
    }
  }

  /** The way down the tree. */
  lemma {:induction false} TreePath(g: Graph, par: seq<nat>, a: nat, x: nat) returns (path: seq<nat>)
    requires SearchTree(g, par) && x < |g| && TreeUp(par, a, x)
    ensures IsPath(g, path) && path[0] == a && path[|path| - 1] == x
    ensures forall n :: n in path ==> a <= n <= x && TreeUp(par, n, x)
    decreases x
  {
    if a == x {
      path := [x];
    } else {
      var front := TreePath(g, par, a, par[x]);
      TreeUpIsEarlier(par, a, par[x]);
      assert IsPath(g, [x]);
      Appended(g, front, [x]);
      path := front + [x];
    }
  }

  lemma {:induction false} RootIsUp(par: seq<nat>, x: nat)
    requires ValidTree(par) && x < |par|
    ensures TreeUp(par, 0, x)
    decreases x
  {
    if x > 0 {
      RootIsUp(par, par[x]);
    }
  }

  /** A path that never goes before its first node stays below it. */
  lemma {:induction false} LeastIsAbove(g: Graph, par: seq<nat>, path: seq<nat>)
    requires SearchTree(g, par) && IsPath(g, path) && forall i :: 0 <= i < |path| ==> path[0] <= path[i]
    ensures path[|path| - 1] < |g| && TreeUp(par, path[0], path[|path| - 1])
  {
    if |path| > 1 {
      LeastIsAbove(g, par, path[..|path| - 1]);
      LastEdge(g, path);
      var a, x, y := path[0], path[|path| - 2], path[|path| - 1];
      if y < x {
        assert Between(par, a, y, x);
      } else if x < y {
        assert EdgeDown(g, par, x, y);
        TreeUpTransitive(par, a, x, y);
      }
    }
  }

  // ----- semidominators in the graph -----

  /** The semidominator of `t`: the earliest node from which a path leads to `t` through later nodes only. */
  function TreeSdom(preds: seq<seq<nat>>, par: seq<nat>, t: nat): nat
    requires ValidPreds(preds) && ValidTree(par) && |par| == |preds| && t < |preds|
    decreases |preds| - t, 0, |preds[t]| + 1
  {
    TreeSdomFrom(preds, par, t, |preds[t]|)
  }

  /** ... from its first `j` predecessors: an earlier one counts with its time, a later one with the least
      semidominator on the way up the tree, as long as it passes later nodes. */
  function TreeSdomFrom(preds: seq<seq<nat>>, par: seq<nat>, t: nat, j: nat): nat
    requires ValidPreds(preds) && ValidTree(par) && |par| == |preds| && t < |preds| && j <= |preds[t]|
    decreases |preds| - t, 0, j
  {
    if j == 0 then t
    else
      var p := preds[t][j - 1];
      Min(TreeSdomFrom(preds, par, t, j - 1), if p <= t then p else PathMin(preds, par, t, p))
  }

  function PathMin(preds: seq<seq<nat>>, par: seq<nat>, t: nat, p: nat): nat
    requires ValidPreds(preds) && ValidTree(par) && |par| == |preds| && t < p < |preds|
    decreases |preds| - (t + 1), 1, p
  {
    if par[p] <= t then TreeSdom(preds, par, p) else Min(TreeSdom(preds, par, p), PathMin(preds, par, t, par[p]))
  }

  lemma {:induction false} TreeSdomOfPred(preds: seq<seq<nat>>, par: seq<nat>, t: nat, j: nat, i: nat)
    requires ValidPreds(preds) && ValidTree(par) && |par| == |preds| && t < |preds| && i < j <= |preds[t]|
    ensures TreeSdomFrom(preds, par, t, j)
         <= if preds[t][i] <= t then preds[t][i] else PathMin(preds, par, t, preds[t][i])
  {
    if i < j - 1 {
      TreeSdomOfPred(preds, par, t, j - 1, i);
    }
  }

  lemma {:induction false} PathMinIsLeast(preds: seq<seq<nat>>, par: seq<nat>, t: nat, p: nat, m: nat)
    requires ValidPreds(preds) && ValidTree(par) && |par| == |preds| && t < p < |preds| && t < m && TreeUp(par, m, p)
    ensures m < |preds| && PathMin(preds, par, t, p) <= TreeSdom(preds, par, m)
    decreases p
  {
    if m != p {
      TreeUpIsEarlier(par, m, par[p]);
      PathMinIsLeast(preds, par, t, par[p], m);
    }
  }

  lemma {:induction false} PathMinIsTaken(preds: seq<seq<nat>>, par: seq<nat>, t: nat, p: nat) returns (q: nat)
    requires ValidPreds(preds) && ValidTree(par) && |par| == |preds| && t < p < |preds|
    ensures t < q <= p && TreeUp(par, q, p) && PathMin(preds, par, t, p) == TreeSdom(preds, par, q)
    decreases p
  {
    q := p;
    if par[p] > t {
      var r := PathMinIsTaken(preds, par, t, par[p]);
      if TreeSdom(preds, par, r) < TreeSdom(preds, par, p) {
        q := r;
      }
    }
  }

  lemma {:induction false} TreeSdomIsTaken(preds: seq<seq<nat>>, par: seq<nat>, t: nat, j: nat) returns (i: nat)
    requires ValidPreds(preds) && ValidTree(par) && |par| == |preds| && t < |preds| && j <= |preds[t]|
    requires TreeSdomFrom(preds, par, t, j) < t
    ensures i < j
    ensures var p := preds[t][i];
            p != t && TreeSdomFrom(preds, par, t, j) == if p < t then p else PathMin(preds, par, t, p)
  {
    if TreeSdomFrom(preds, par, t, j - 1) == TreeSdomFrom(preds, par, t, j) {
      i := TreeSdomIsTaken(preds, par, t, j - 1);
    } else {
      i := j - 1;
    }
  }

  // ----- semidominators and detours -----

  /** The start of a detour bounds the semidominator of its end. */
  lemma {:induction false} DetourBoundsTree(g: Graph, preds: seq<seq<nat>>, par: seq<nat>, p: nat, w: nat,
                                            path: seq<nat>)
    requires PredsOf(g, preds) && SearchTree(g, par) && Detour(g, p, w, path) && p < w
    ensures w < |preds| && TreeSdom(preds, par, w) <= p
    decreases |path|
  {
    var q := path[|path| - 2];
    LastEdge(g, path);
    var j :| 0 <= j < |preds[w]| && preds[w][j] == q;
    TreeSdomOfPred(preds, par, w, |preds[w]|, j);
    if |path| > 2 {
      var i := LeastInner(path, |path| - 1);
      PathFront(g, path, i + 1);
      DetourBoundsTree(g, preds, par, p, path[i], path[..i + 1]);
      LeastReaches(g, par, path, i);
      PathMinIsLeast(preds, par, w, q, path[i]);
    }
  }

  /** The least inner node of a path is above the last inner one. */
  lemma LeastReaches(g: Graph, par: seq<nat>, path: seq<nat>, i: nat)
    requires SearchTree(g, par) && IsPath(g, path) && 1 <= i < |path| - 1
    requires forall k :: 1 <= k < |path| - 1 ==> path[i] <= path[k]
    ensures path[|path| - 2] < |g| && TreeUp(par, path[i], path[|path| - 2])
  {
    PathFront(g, path, |path| - 1);
    PathBack(g, path[..|path| - 1], i);
    LeastIsAbove(g, par, path[..|path| - 1][i..]);
  }

  /** From the semidominator of `w` there is a way to `w` through later nodes only. */
  lemma {:induction false} TreeDetour(g: Graph, preds: seq<seq<nat>>, par: seq<nat>, w: nat) returns (path: seq<nat>)
    requires PredsOf(g, preds) && SearchTree(g, par) && w < |preds| && TreeSdom(preds, par, w) < w
    ensures Detour(g, TreeSdom(preds, par, w), w, path)
    decreases |preds| - w
  {
    var i := TreeSdomIsTaken(preds, par, w, |preds[w]|);
    var p := preds[w][i];
    assert p in preds[w] && w in g[p];
    if p < w {
      path := [p, w];
      assert path[..1] == [p];
    } else {
      var q := PathMinIsTaken(preds, par, w, p);
      var front := TreeDetour(g, preds, par, q);
      path := TreeDetourBack(g, par, w, p, q, front);
    }
  }

  lemma TreeDetourBack(g: Graph, par: seq<nat>, w: nat, p: nat, q: nat, front: seq<nat>) returns (path: seq<nat>)
    requires SearchTree(g, par) && w < q <= p < |g| && w in g[p] && TreeUp(par, q, p)
    requires front != [] && Detour(g, front[0], q, front)
    ensures Detour(g, front[0], w, path)
  {
    var way := TreePath(g, par, q, p);
    var longer := JoinedAt(g, front, way);
    assert IsPath(g, [w]);
    Appended(g, longer, [w]);
    path := longer + [w];
    forall i | 0 < i < |path| - 1 ensures w < path[i] {
      if i < |front| {
        assert longer[i] == front[i];
      } else {
        assert longer[i] == way[i - |front| + 1];
        assert way[i - |front| + 1] in way;
      }
    }
  }

  /** Two paths, the second from where the first ends. */
  lemma JoinedAt(g: Graph, a: seq<nat>, b: seq<nat>) returns (path: seq<nat>)
    requires IsPath(g, a) && IsPath(g, b) && a[|a| - 1] == b[0]
    ensures IsPath(g, path) && path == a + b[1..] && path[0] == a[0] && path[|path| - 1] == b[|b| - 1]
  {
    path := a + b[1..];
    if |b| == 1 {
      assert path == a;
    } else {
      PathBack(g, b, 1);
      PathEdge(g, b, 0);
      Appended(g, a, b[1..]);
    }
  }

  // ----- dominance -----

  /** `w` lies on the way down the tree from `d` to `v`, behind `d`. */
  ghost predicate OnTreePath(par: seq<nat>, d: nat, w: nat, v: nat)
    requires ValidTree(par) && v < |par|
  {
    w < |par| && d < w && TreeUp(par, d, w) && TreeUp(par, w, v)
  }

  /** No node on that way has a semidominator before `d`. */
  ghost predicate NoneAround(preds: seq<seq<nat>>, par: seq<nat>, d: nat, v: nat)
    requires ValidPreds(preds) && ValidTree(par) && |par| == |preds| && v < |preds|
  {
    forall w :: OnTreePath(par, d, w, v) ==> d <= TreeSdom(preds, par, w)
  }

  lemma PathAroundTree(g: Graph, preds: seq<seq<nat>>, par: seq<nat>, d: nat, v: nat, path: seq<nat>)
    requires PredsOf(g, preds) && SearchTree(g, par) && v < |g| && TreeUp(par, d, v)
    requires EntryPath(g, 0, path, v) && d !in path
    ensures !NoneAround(preds, par, d, v)
  {
    assert path[0] in path && path[|path| - 1] in path;
    TreeUpIsEarlier(par, d, v);
    var i := LastBefore(path, d);
    forall k | i < k < |path| ensures d < path[k] {
      assert path[k] in path;
    }
    PathBack(g, path, i);
    RestAroundTree(g, preds, par, d, v, path[i..]);
  }

  lemma RestAroundTree(g: Graph, preds: seq<seq<nat>>, par: seq<nat>, d: nat, v: nat, path: seq<nat>)
    requires PredsOf(g, preds) && SearchTree(g, par) && v < |g| && TreeUp(par, d, v)
    requires IsPath(g, path) && path[0] < d < v && path[|path| - 1] == v
    requires forall k :: 1 <= k < |path| ==> d < path[k]
    ensures !NoneAround(preds, par, d, v)
  {
    var w := LeastOfRest(g, preds, par, path);
    TreeUpOrdered(par, d, w, v);
    assert OnTreePath(par, d, w, v);
  }

  /** The least node of a path behind its first one is above the last one and has an early semidominator. */
  lemma LeastOfRest(g: Graph, preds: seq<seq<nat>>, par: seq<nat>, path: seq<nat>) returns (w: nat)
    requires PredsOf(g, preds) && SearchTree(g, par) && IsPath(g, path) && |path| > 1
    requires forall k :: 1 <= k < |path| ==> path[0] < path[k]
    ensures path[|path| - 1] < |g| && w < |g| && w in path[1..]
    ensures TreeUp(par, w, path[|path| - 1]) && TreeSdom(preds, par, w) <= path[0]
  {
    var k := LeastInner(path, |path|);
    w := path[k];
    assert path[1..][k - 1] == w;
    LeastIsDetour(g, path, k);
    DetourBoundsTree(g, preds, par, path[0], w, path[..k + 1]);
    PathBack(g, path, k);
    LeastIsAbove(g, par, path[k..]);
  }

  /** A node on the way with a semidominator before `d` gives a path around `d`. */
  lemma MakePathAround(g: Graph, preds: seq<seq<nat>>, par: seq<nat>, d: nat, w: nat, v: nat) returns (path: seq<nat>)
    requires PredsOf(g, preds) && SearchTree(g, par) && v < |g| && OnTreePath(par, d, w, v)
    requires TreeSdom(preds, par, w) < d
    ensures EntryPath(g, 0, path, v) && d !in path
  {
    var detour := TreeDetour(g, preds, par, w);
    RootIsUp(par, detour[0]);
    var front := TreePath(g, par, 0, detour[0]);
    var back := TreePath(g, par, w, v);
    var middle := JoinedAt(g, front, detour);
    path := JoinedAt(g, middle, back);
    forall n | n in path ensures n != d {
      if n !in front && n !in back {
        assert n in detour[1..];
        var i :| 1 <= i < |detour| && detour[i] == n;
      }
    }
  }

  /** In the graph itself `d` dominates `v` exactly when it is above it in the search tree and no node on the way
      down from `d` to `v` has a semidominator before `d`. */
  lemma TreeDominanceIff(g: Graph, preds: seq<seq<nat>>, par: seq<nat>, d: nat, v: nat)
    requires PredsOf(g, preds) && SearchTree(g, par) && v < |g|
    ensures Dominates(g, 0, d, v) <==> TreeUp(par, d, v) && NoneAround(preds, par, d, v)
  {
    if TreeUp(par, d, v) && NoneAround(preds, par, d, v) {
      forall path | EntryPath(g, 0, path, v) ensures d in path {
        if d !in path {
          PathAroundTree(g, preds, par, d, v, path);
        }
      }
    } else if !TreeUp(par, d, v) {
      RootIsUp(par, v);
      var path := TreePath(g, par, 0, v);
      assert EntryPath(g, 0, path, v);
    } else {
      var w :| OnTreePath(par, d, w, v) && TreeSdom(preds, par, w) < d;
      var path := MakePathAround(g, preds, par, d, w, v);
    }
  }

  // ----- when the computed tree reports dominators only -----

  /** The computed idom of `v` dominates it, by the semidominators of the graph. */
  ghost predicate IdomRight(preds: seq<seq<nat>>, par: seq<nat>, v: nat)
    requires ValidPreds(preds) && Discovered(preds) && ValidTree(par) && |par| == |preds| && 0 < v < |preds|
  {
    TreeUp(par, Idom(preds, v), v) && NoneAround(preds, par, Idom(preds, v), v)
  }

  ghost predicate AllIdomsRight(preds: seq<seq<nat>>, par: seq<nat>)
    requires ValidPreds(preds) && Discovered(preds) && ValidTree(par) && |par| == |preds|
  {
    forall v :: 0 < v < |preds| ==> IdomRight(preds, par, v)
  }

  /** Whatever the tree reports is a dominator. */
  ghost predicate Sound(g: Graph, preds: seq<seq<nat>>)
    requires ValidPreds(preds) && Discovered(preds) && |g| == |preds|
  {
    forall d, v: nat :: v < |preds| && Ancestor(preds, d, v) ==> Dominates(g, 0, d, v)
  }

  lemma {:induction false} AncestorIsRight(g: Graph, preds: seq<seq<nat>>, par: seq<nat>, d: nat, v: nat)
    requires PredsOf(g, preds) && Discovered(preds) && SearchTree(g, par) && v < |g|
    requires AllIdomsRight(preds, par) && Ancestor(preds, d, v)
    ensures Dominates(g, 0, d, v)
    decreases v
  {
    if d == v {
      forall path | EntryPath(g, 0, path, v) ensures d in path {
        assert path[|path| - 1] in path;
      }
    } else {
      IdomIsEarlier(preds, v);
      var m := Idom(preds, v);
      AncestorIsRight(g, preds, par, d, m);
      assert IdomRight(preds, par, v);
      TreeDominanceIff(g, preds, par, m, v);
      DominatesTransitive(g, 0, d, m, v);
    }
  }

  /** The computed tree reports only dominators of the graph exactly if every computed idom is above its node in
      the search tree with no semidominator before it on the way. */
  lemma SoundIff(g: Graph, preds: seq<seq<nat>>, par: seq<nat>)
    requires PredsOf(g, preds) && Discovered(preds) && SearchTree(g, par)
    ensures Sound(g, preds) <==> AllIdomsRight(preds, par)
  {
    if AllIdomsRight(preds, par) {
      forall d, v: nat | v < |preds| && Ancestor(preds, d, v) ensures Dominates(g, 0, d, v) {
        AncestorIsRight(g, preds, par, d, v);
      }
    }
    if Sound(g, preds) {
      forall v | 0 < v < |preds| ensures IdomRight(preds, par, v) {
        IdomIsEarlier(preds, v);
        assert Ancestor(preds, Idom(preds, v), v);
        TreeDominanceIff(g, preds, par, Idom(preds, v), v);
      }
    }
  }
}
