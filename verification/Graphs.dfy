/** Control-flow graphs by adjacency: paths, reachability, dominance. */
module Graphs {

  /** The successors of each node, in order; a node may be listed more than once. */
  type Graph = seq<seq<nat>>

  ghost predicate ValidGraph(g: Graph) {
    forall u, j :: 0 <= u < |g| && 0 <= j < |g[u]| ==> g[u][j] < |g|
  }

  ghost predicate IsPath(g: Graph, path: seq<nat>) {
    path != [] && path[|path| - 1] < |g| &&
    (|path| == 1 ||
     (IsPath(g, path[..|path| - 1]) && path[|path| - 1] in g[path[|path| - 2]]))
  }

  ghost predicate EntryPath(g: Graph, entry: nat, path: seq<nat>, u: nat) {
    IsPath(g, path) && path[0] == entry && path[|path| - 1] == u
  }

  ghost predicate Reachable(g: Graph, entry: nat, u: nat) {
    exists path :: EntryPath(g, entry, path, u)
  }

  /** Every path from the entry to `u` goes through `d`. */
  ghost predicate Dominates(g: Graph, entry: nat, d: nat, u: nat) {
    forall path :: EntryPath(g, entry, path, u) ==> d in path
  }

  lemma ExtendPath(g: Graph, entry: nat, path: seq<nat>, u: nat, w: nat)
    requires EntryPath(g, entry, path, u) && w < |g| && w in g[u]
    ensures EntryPath(g, entry, path + [w], w)
  {
    assert (path + [w])[..|path|] == path;
  }

  /** The front of a path, up to a node on it. */
  lemma {:induction false} PathPrefix(g: Graph, path: seq<nat>, u: nat) returns (n: nat)
    requires IsPath(g, path) && u in path
    ensures 0 < n <= |path| && IsPath(g, path[..n]) && path[n - 1] == u && u !in path[..n - 1]
  {
    if u in path[..|path| - 1] {
      n := PathPrefix(g, path[..|path| - 1], u);
      assert path[..|path| - 1][..n] == path[..n];
      assert path[..|path| - 1][..n - 1] == path[..n - 1];
    } else {
      n := |path|;
      assert path[..n] == path;
      assert path == path[..n - 1] + [path[n - 1]];
    }
  }

  lemma {:induction false} PathFront(h: Graph, path: seq<nat>, n: nat)
    requires IsPath(h, path) && 0 < n <= |path|
    ensures IsPath(h, path[..n])
  {
    if n < |path| {
      PathFront(h, path[..|path| - 1], n);
      assert path[..|path| - 1][..n] == path[..n];
    } else {
      assert path[..n] == path;
    }
  }

  lemma {:induction false} PathBack(h: Graph, path: seq<nat>, i: nat)
    requires IsPath(h, path) && i < |path|
    ensures IsPath(h, path[i..])
    decreases |path|
  {
    if i < |path| - 1 {
      var front := path[..|path| - 1];
      PathBack(h, front, i);
      assert path[i..][..|path| - 1 - i] == front[i..];
      assert path[i..][|path| - 1 - i] == path[|path| - 1] && path[i..][|path| - 2 - i] == path[|path| - 2];
    }
  }

  lemma {:induction false} Appended(h: Graph, a: seq<nat>, b: seq<nat>)
    requires IsPath(h, a) && IsPath(h, b) && b[0] in h[a[|a| - 1]]
    ensures IsPath(h, a + b)
  {
    if |b| == 1 {
      assert (a + b)[..|a|] == a;
    } else {
      var front := b[..|b| - 1];
      assert front[0] == b[0];
      Appended(h, a, front);
      assert (a + b)[..|a + b| - 1] == a + front;
    }
  }

  lemma {:induction false} PathEdge(h: Graph, path: seq<nat>, i: nat)
    requires IsPath(h, path) && i + 1 < |path|
    ensures path[i] < |h| && path[i + 1] in h[path[i]]
  {
    var front := path[..|path| - 1];
    if i + 2 < |path| {
      PathEdge(h, front, i);
    } else {
      assert front[i] == path[i];
    }
  }

  lemma {:induction false} LastOccurrence(path: seq<nat>, u: nat) returns (m: nat)
    requires u in path
    ensures m < |path| && path[m] == u && forall i :: m < i < |path| ==> path[i] != u
  {
    if path[|path| - 1] == u {
      m := |path| - 1;
    } else {
      m := LastOccurrence(path[..|path| - 1], u);
    }
  }

  /** Between the last visit to `b` and a node that `b` dominates, no path meets a strict dominator of `b`. */
  lemma NoReturn(g: Graph, entry: nat, path: seq<nat>, b: nat, m: nat, t: nat)
    requires IsPath(g, path) && path[0] == entry && Dominates(g, entry, b, path[|path| - 1])
    requires m < t < |path| && path[m] == b && forall i :: m < i < |path| ==> path[i] != b
    ensures !Dominates(g, entry, path[t], b)
  {
    if Dominates(g, entry, path[t], b) {
      var n := PathPrefix(g, path, b);
      assert EntryPath(g, entry, path[..n], b);
      var k := PathPrefix(g, path[..n], path[t]);
      assert path[..n][..k] == path[..k] && k < n;
      var around := Shortcut(g, path, k, t);
      forall i | 0 <= i < |around| ensures around[i] != b {
        if i < k {
          assert around[i] == path[i] && path[i] == path[..n - 1][i];
        }
      }
      assert EntryPath(g, entry, around, path[|path| - 1]);
    }
  }

  /** A path without the part between two visits to a node. */
  lemma Shortcut(g: Graph, path: seq<nat>, k: nat, t: nat) returns (short: seq<nat>)
    requires IsPath(g, path) && 0 < k <= t + 1 <= |path| && IsPath(g, path[..k]) && path[k - 1] == path[t]
    ensures IsPath(g, short) && short == path[..k] + path[t + 1..]
    ensures short[0] == path[0] && short[|short| - 1] == path[|path| - 1]
  {
    short := path[..k] + path[t + 1..];
    if t + 1 < |path| {
      PathBack(g, path, t + 1);
      PathEdge(g, path, t);
      Appended(g, path[..k], path[t + 1..]);
    } else {
      assert short == path[..k];
    }
  }

  lemma DominatesTransitive(g: Graph, entry: nat, a: nat, b: nat, c: nat)
    requires Dominates(g, entry, a, b) && Dominates(g, entry, b, c)
    ensures Dominates(g, entry, a, c)
  {
    forall path | EntryPath(g, entry, path, c) ensures a in path {
      var n := PathPrefix(g, path, b);
      assert EntryPath(g, entry, path[..n], b);
      assert a in path[..n];
    }
  }

  /** A way to a strict dominator of `a` that does not come by `a`. */
  lemma WayToDominator(g: Graph, entry: nat, a: nat, b: nat) returns (way: seq<nat>)
    requires Reachable(g, entry, a) && Dominates(g, entry, b, a) && a != b
    ensures EntryPath(g, entry, way, b) && a !in way
  {
    var path :| EntryPath(g, entry, path, a);
    var n := PathPrefix(g, path, a);
    assert EntryPath(g, entry, path[..n], a);
    var k := PathPrefix(g, path[..n], b);
    way := path[..n][..k];
    assert forall i :: 0 <= i < k && k < n ==> way[i] == path[..n - 1][i];
  }

  /** Two reachable nodes do not dominate each other. */
  lemma DominatesStrict(g: Graph, entry: nat, a: nat, b: nat)
    requires Dominates(g, entry, a, b) && a != b && Reachable(g, entry, a)
    ensures !Dominates(g, entry, b, a)
  {
    if Dominates(g, entry, b, a) {
      var way := WayToDominator(g, entry, a, b);
    }
  }
}
