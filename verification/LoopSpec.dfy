/** Natural loops: who belongs to one, and how they nest. */
module LoopSpec {
  import opened Wrappers
  import opened Graphs

  /** `heads`: the loop headers in the order in which the search finished them; `latches`: the sources of the
      back edges to each. */
  datatype Loops = Loops(heads: seq<nat>, latches: map<nat, seq<nat>>)

  /** A way from `n` to a source of a back edge to `h` that does not come by `h`. */
  ghost predicate LatchPath(g: Graph, l: Loops, h: nat, path: seq<nat>) {
    IsPath(g, path) && h in l.latches && path[|path| - 1] in l.latches[h] && h !in path
  }

  /** `n` belongs to the natural loop of `h`, and is not its header. */
  ghost predicate InLoop(g: Graph, l: Loops, h: nat, n: nat) {
    exists path :: LatchPath(g, l, h, path) && path[0] == n
  }

  /** Every loop is reducible, and an inner header stands before the outer one. */
  ghost predicate Natural(g: Graph, entry: nat, l: Loops) {
    && ValidGraph(g) && entry < |g|
    && (forall h :: h in l.heads <==> h in l.latches)
    && (forall h, u :: h in l.latches && u in l.latches[h] ==> IsLatch(g, entry, h, u))
    && (forall i, j :: 0 <= i < j < |l.heads| ==> Ordered(g, entry, l.heads[i], l.heads[j]))
  }

  ghost predicate IsLatch(g: Graph, entry: nat, h: nat, u: nat) {
    u < |g| && h < |g| && h in g[u] && h != u && Dominates(g, entry, h, u) && Reachable(g, entry, u)
  }

  ghost predicate Ordered(g: Graph, entry: nat, h: nat, later: nat) {
    h != later && !Dominates(g, entry, h, later)
  }

  /** The header dominates its loop. */
  lemma HeaderDominates(g: Graph, entry: nat, l: Loops, h: nat, n: nat)
    requires Natural(g, entry, l) && InLoop(g, l, h, n)
    ensures Dominates(g, entry, h, n) && n != h
  {
    var path :| LatchPath(g, l, h, path) && path[0] == n;
    assert n in path;
    var u := path[|path| - 1];
    assert IsLatch(g, entry, h, u);
    forall way | EntryPath(g, entry, way, n) ensures h in way {
      var whole := Joined(g, way, path);
      assert EntryPath(g, entry, whole, u);
      var i :| 0 <= i < |whole| && whole[i] == h;
      if i >= |way| {
        assert whole[i] == path[i - |way| + 1];
      }
    }
  }

  /** Two paths, the second from where the first ends. */
  lemma Joined(g: Graph, a: seq<nat>, b: seq<nat>) returns (path: seq<nat>)
    requires IsPath(g, a) && IsPath(g, b) && a[|a| - 1] == b[0]
    ensures IsPath(g, path) && path == a + b[1..] && path[0] == a[0] && path[|path| - 1] == b[|b| - 1]
  {
    path := a + b[1..];
    if |b| == 1 {
      assert path == a;
    } else {
      PathBack(g, b, 1);
      PathEdge(g, b, 0);
      Appended(g, a, b[1..]);
    }
  }

  /** A node on a way to a latch is in the loop itself. */
  lemma OnLatchPath(g: Graph, l: Loops, h: nat, path: seq<nat>, i: nat)
    requires LatchPath(g, l, h, path) && i < |path|
    ensures InLoop(g, l, h, path[i])
  {
    PathBack(g, path, i);
    assert LatchPath(g, l, h, path[i..]);
  }

  /** From the header there is a way to each node of the loop through nodes of the loop. */
  lemma HeaderReaches(g: Graph, entry: nat, l: Loops, h: nat, n: nat) returns (way: seq<nat>)
    requires Natural(g, entry, l) && InLoop(g, l, h, n) && Reachable(g, entry, n)
    ensures IsPath(g, way) && way[0] == h && way[|way| - 1] == n
    ensures forall i :: 1 <= i < |way| ==> InLoop(g, l, h, way[i])
  {
    HeaderDominates(g, entry, l, h, n);
    var path :| EntryPath(g, entry, path, n);
    var m := LastOccurrence(path, h);
    PathBack(g, path, m);
    way := path[m..];
    forall i | 1 <= i < |way| ensures InLoop(g, l, h, way[i]) {
      assert forall k :: i <= k < |way| ==> way[k] == path[m + k] && way[k] != h;
      PathBack(g, way, i);
      LeadsIntoLoop(g, l, h, n, way[i..]);
    }
  }

  /** A way without the header to a node of the loop starts in the loop. */
  lemma LeadsIntoLoop(g: Graph, l: Loops, h: nat, n: nat, way: seq<nat>)
    requires IsPath(g, way) && h !in way && way[|way| - 1] == n && InLoop(g, l, h, n)
    ensures InLoop(g, l, h, way[0])
  {
    var tail :| LatchPath(g, l, h, tail) && tail[0] == n;
    var whole := Joined(g, way, tail);
    assert LatchPath(g, l, h, whole) && whole[0] == way[0];
  }

  /** Loops that share a node are nested: the earlier header belongs to the later loop. */
  lemma Nested(g: Graph, entry: nat, l: Loops, h: nat, outer: nat, n: nat)
    requires Natural(g, entry, l) && InLoop(g, l, h, n) && InLoop(g, l, outer, n) && Reachable(g, entry, n)
    requires Ordered(g, entry, h, outer)
    ensures InLoop(g, l, outer, h)
  {
    var way := HeaderReaches(g, entry, l, h, n);
    var tail :| LatchPath(g, l, outer, tail) && tail[0] == n;
    var whole := Joined(g, way, tail);
    forall i | 0 <= i < |way| ensures way[i] != outer {
      if i > 0 && way[i] == outer {
        HeaderDominates(g, entry, l, h, outer);
      }
    }
    assert LatchPath(g, l, outer, whole) && whole[0] == h;
  }

  /** A loop whose header belongs to another one lies inside it. */
  lemma InnerInside(g: Graph, entry: nat, l: Loops, h: nat, outer: nat, n: nat)
    requires Natural(g, entry, l) && InLoop(g, l, outer, h) && InLoop(g, l, h, n)
    ensures InLoop(g, l, outer, n)
  {
    var path :| LatchPath(g, l, h, path) && path[0] == n;
    var tail :| LatchPath(g, l, outer, tail) && tail[0] == h;
    var u := path[|path| - 1];
    assert IsLatch(g, entry, h, u);
    forall i | 0 <= i < |path| ensures path[i] != outer {
      OnLatchPath(g, l, h, path, i);
      HeaderDominates(g, entry, l, h, path[i]);
      HeaderDominates(g, entry, l, outer, h);
      if path[i] == outer {
        HeaderIsReachable(g, entry, h, u);
        DominatorIsReachable(g, entry, outer, h);
        DominatesStrict(g, entry, outer, h);
      }
    }
    Appended(g, path, tail);
    assert LatchPath(g, l, outer, path + tail) && (path + tail)[0] == n;
  }

  lemma DominatorIsReachable(g: Graph, entry: nat, d: nat, n: nat)
    requires Dominates(g, entry, d, n) && Reachable(g, entry, n)
    ensures Reachable(g, entry, d)
  {
    var path :| EntryPath(g, entry, path, n);
    var k := PathPrefix(g, path, d);
    assert EntryPath(g, entry, path[..k], d);
  }

  lemma HeaderIsReachable(g: Graph, entry: nat, h: nat, u: nat)
    requires IsLatch(g, entry, h, u)
    ensures Reachable(g, entry, h)
  {
    DominatorIsReachable(g, entry, h, u);
  }

  // ----- ownership -----

  /** The first of the headers up to place `i` whose loop `n` belongs to. */
  ghost function FirstLoop(g: Graph, l: Loops, i: nat, n: nat): Option<nat>
    requires i <= |l.heads|
  {
    if i == 0 then None
    else if FirstLoop(g, l, i - 1, n).Some? then FirstLoop(g, l, i - 1, n)
    else if InLoop(g, l, l.heads[i - 1], n) then Some(l.heads[i - 1])
    else None
  }

  lemma {:induction false} FirstLoopIs(g: Graph, l: Loops, i: nat, n: nat)
    requires i <= |l.heads|
    ensures FirstLoop(g, l, i, n).None? ==> forall k :: 0 <= k < i ==> !InLoop(g, l, l.heads[k], n)
    ensures FirstLoop(g, l, i, n).Some? ==>
        exists k :: 0 <= k < i && l.heads[k] == FirstLoop(g, l, i, n).value && InLoop(g, l, l.heads[k], n)
                    && forall j :: 0 <= j < k ==> !InLoop(g, l, l.heads[j], n)
  {
    if i > 0 {
      FirstLoopIs(g, l, i - 1, n);
    }
  }

  lemma {:induction false} FirstLoopStays(g: Graph, l: Loops, i: nat, j: nat, n: nat)
    requires i <= j <= |l.heads| && FirstLoop(g, l, i, n).Some?
    ensures FirstLoop(g, l, j, n) == FirstLoop(g, l, i, n)
  {
    if i < j {
      FirstLoopStays(g, l, i, j - 1, n);
    }
  }
}
