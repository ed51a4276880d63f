/** The searches with explicit stacks as recursive functions. */
module RecursiveSearch {
  import opened FiniteSets
  import opened Graphs
  import opened DfsState
  import opened Dfs
  import opened LoopSearches

  // ----- depth-first search -----

  /** Discovered nodes, and the events since. */
  datatype Walked = Walked(seen: set<nat>, events: seq<Event>)

  /** The search below `n` from its successor `j` on: successors in order, an undiscovered one with all below it, an
      open one reported, and at last `n` is finished. `open` holds the nodes on the way to `n` and `n`. */
  function Walk(g: Graph, n: nat, j: nat, open: set<nat>, seen: set<nat>): (r: Walked)
    requires ValidGraph(g) && n < |g|
    ensures seen <= r.seen
    decreases Below(|g|) - seen, if j < |g[n]| then |g[n]| - j else 0
  {
    if j >= |g[n]| then Walked(seen, [Finish(n)])
    else
      var t := g[n][j];
      if t in open then
        var rest := Walk(g, n, j + 1, open, seen);
        Walked(rest.seen, [BackEdge(n, j, t)] + rest.events)
      else if t in seen then Walk(g, n, j + 1, open, seen)
      else
        var below := Walk(g, t, 0, open + {t}, seen + {t});
        var rest := Walk(g, n, j + 1, open, below.seen);
        Walked(rest.seen, [Discover(t)] + below.events + rest.events)
  }

  /** What is left to do for a stack: its top node, then the nodes below. */
  function WalkStack(g: Graph, stack: Stack, seen: set<nat>): Walked
    requires ValidGraph(g) && InGraph(g, stack)
  {
    match stack
    case Empty => Walked(seen, [])
    case Push(n, j, below) =>
      var top := Walk(g, n, j, Elems(Nodes(stack)), seen);
      var rest := WalkStack(g, below, top.seen);
      Walked(rest.seen, top.events + rest.events)
  }

  predicate InGraph(g: Graph, stack: Stack) {
    stack.Push? ==> stack.node < |g| && InGraph(g, stack.below)
  }

  function Seen(m: Moment): set<nat> {
    Elements(DiscoverOrder(m.trace))
  }

  lemma SeenNext(trace: seq<Event>, e: Event)
    ensures Elements(DiscoverOrder(trace + [e]))
         == Elements(DiscoverOrder(trace)) + if e.Discover? then {e.node} else {}
  {
    assert (trace + [e])[..|trace|] == trace;
  }

  /** What has been done and what is left together stay the same with every look. */
  lemma NextWalks(g: Graph, m: Moment)
    requires ValidGraph(g) && InGraph(g, m.stack)
    ensures InGraph(g, Next(g, m).stack)
    ensures Next(g, m).trace + WalkStack(g, Next(g, m).stack, Seen(Next(g, m))).events
         == m.trace + WalkStack(g, m.stack, Seen(m)).events
  {
    if m.stack.Push? {
      var n, j, below := m.stack.node, m.stack.next, m.stack.below;
      if j >= |g[n]| {
        SeenNext(m.trace, Finish(n));
        var rest := WalkStack(g, below, Seen(m)).events;
        assert m.trace + [Finish(n)] + rest == m.trace + ([Finish(n)] + rest);
      } else {
        EdgeWalks(g, m);
      }
    }
  }

  lemma EdgeWalks(g: Graph, m: Moment)
    requires ValidGraph(g) && InGraph(g, m.stack) && m.stack.Push? && m.stack.next < |g[m.stack.node]|
    ensures InGraph(g, Next(g, m).stack)
    ensures Next(g, m).trace + WalkStack(g, Next(g, m).stack, Seen(Next(g, m))).events
         == m.trace + WalkStack(g, m.stack, Seen(m)).events
  {
    var t := g[m.stack.node][m.stack.next];
    if t in Elems(Nodes(m.stack)) {
      OpenWalks(g, m, t);
    } else if t !in Seen(m) {
      NewWalks(g, m, t);
    }
  }

  lemma OpenWalks(g: Graph, m: Moment, t: nat)
    requires ValidGraph(g) && InGraph(g, m.stack) && m.stack.Push? && m.stack.next < |g[m.stack.node]|
    requires t == g[m.stack.node][m.stack.next] && t in Elems(Nodes(m.stack))
    ensures Next(g, m).trace + WalkStack(g, Next(g, m).stack, Seen(Next(g, m))).events
         == m.trace + WalkStack(g, m.stack, Seen(m)).events
  {
    var n, j, below := m.stack.node, m.stack.next, m.stack.below;
    SeenNext(m.trace, BackEdge(n, j, t));
    var top := Walk(g, n, j + 1, Elems(Nodes(m.stack)), Seen(m));
    var rest := WalkStack(g, below, top.seen).events;
    assert WalkStack(g, m.stack, Seen(m)).events == [BackEdge(n, j, t)] + top.events + rest;
    assert WalkStack(g, Next(g, m).stack, Seen(Next(g, m))).events == top.events + rest;
    Regroup(m.trace, [BackEdge(n, j, t)], top.events, rest);
  }

  lemma Regroup(a: seq<Event>, b: seq<Event>, c: seq<Event>, d: seq<Event>)
    ensures a + b + (c + d) == a + (b + c + d)
  {
  }

  lemma NewWalks(g: Graph, m: Moment, t: nat)
    requires ValidGraph(g) && InGraph(g, m.stack) && m.stack.Push? && m.stack.next < |g[m.stack.node]|
    requires t == g[m.stack.node][m.stack.next] && t !in Elems(Nodes(m.stack)) && t !in Seen(m)
    ensures Next(g, m).trace + WalkStack(g, Next(g, m).stack, Seen(Next(g, m))).events
         == m.trace + WalkStack(g, m.stack, Seen(m)).events
  {
    var n, j, below := m.stack.node, m.stack.next, m.stack.below;
    var open, onwards := Elems(Nodes(m.stack)), Push(n, j + 1, below);
    SeenNext(m.trace, Discover(t));
    var deep := Walk(g, t, 0, open + {t}, Seen(m) + {t});
    var top := Walk(g, n, j + 1, open, deep.seen);
    var rest := WalkStack(g, below, top.seen).events;
    assert WalkStack(g, m.stack, Seen(m)).events == [Discover(t)] + deep.events + top.events + rest;
    assert Elems(Nodes(Push(t, 0, onwards))) == open + {t};
    assert WalkStack(g, onwards, deep.seen).events == top.events + rest;
    assert WalkStack(g, Next(g, m).stack, Seen(Next(g, m))).events == deep.events + (top.events + rest);
    Regroup([Discover(t)], deep.events, top.events, rest);
    Regroup(m.trace, [Discover(t)], deep.events, top.events + rest);
  }

  lemma StartWalks(g: Graph, entry: nat)
    requires ValidGraph(g) && entry < |g|
    ensures WalkStack(g, Push(entry, 0, Empty), {entry}).events == Walk(g, entry, 0, {entry}, {entry}).events
    ensures Seen(Moment(Push(entry, 0, Empty), [Discover(entry)])) == {entry}
  {
    SeenNext([], Discover(entry));
    assert [] + [Discover(entry)] == [Discover(entry)];
    assert Elems(Nodes(Push(entry, 0, Empty))) == {entry};
    var top := Walk(g, entry, 0, {entry}, {entry});
    assert WalkStack(g, Empty, top.seen).events == [];
    assert top.events + [] == top.events;
  }

  lemma {:induction false} AfterWalks(g: Graph, entry: nat, k: nat)
    requires ValidGraph(g) && entry < |g|
    ensures InGraph(g, After(g, entry, k).stack)
    ensures After(g, entry, k).trace + WalkStack(g, After(g, entry, k).stack, Seen(After(g, entry, k))).events
         == [Discover(entry)] + Walk(g, entry, 0, {entry}, {entry}).events
  {
    if k == 0 {
      StartWalks(g, entry);
    } else {
      AfterWalks(g, entry, k - 1);
      NextWalks(g, After(g, entry, k - 1));
    }
  }

  /** The events of the search with a stack are those of the recursive one. */
  lemma SearchIsWalk(g: Graph, entry: nat, s: Search)
    requires ValidGraph(g) && entry < |g| && Finished(g, entry, s)
    ensures s.trace == [Discover(entry)] + Walk(g, entry, 0, {entry}, {entry}).events
  {
    var k: nat :| s == StateAfter(g, entry, k);
    StateKeeps(g, entry, k);
    AfterWalks(g, entry, k);
    assert s.trace + [] == s.trace;
  }

  // ----- the search for the blocks of a loop -----

  /** Visited blocks, and those met since. */
  datatype Back = Back(visited: set<nat>, met: seq<nat>)

  /** The search above `n` from its predecessor `j` on: each that is neither the header nor visited is met, and then
      all above it. */
  function WalkBack(preds: Graph, h: nat, n: nat, j: nat, visited: set<nat>): (r: Back)
    requires ValidGraph(preds) && n < |preds|
    ensures visited <= r.visited
    decreases Below(|preds|) - visited, if j < |preds[n]| then |preds[n]| - j else 0
  {
    if j >= |preds[n]| then Back(visited, [])
    else
      var p := preds[n][j];
      if p == h || p in visited then WalkBack(preds, h, n, j + 1, visited)
      else
        var above := WalkBack(preds, h, p, 0, visited + {p});
        var rest := WalkBack(preds, h, n, j + 1, above.visited);
        Back(rest.visited, [p] + above.met + rest.met)
  }

  function WalkBackStack(preds: Graph, h: nat, stack: Stack, visited: set<nat>): Back
    requires ValidGraph(preds) && InGraph(preds, stack)
  {
    match stack
    case Empty => Back(visited, [])
    case Push(n, j, below) =>
      var top := WalkBack(preds, h, n, j, visited);
      var rest := WalkBackStack(preds, h, below, top.visited);
      Back(rest.visited, top.met + rest.met)
  }

  predicate AllIn(preds: Graph, srcs: seq<nat>) {
    forall i :: 0 <= i < |srcs| ==> srcs[i] < |preds|
  }

  /** From the latches, the last one first. */
  function WalkLatches(preds: Graph, h: nat, srcs: seq<nat>, visited: set<nat>): Back
    requires ValidGraph(preds) && AllIn(preds, srcs)
  {
    if srcs == [] then Back(visited, [])
    else
      var last := WalkBack(preds, h, srcs[|srcs| - 1], 0, visited);
      var rest := WalkLatches(preds, h, srcs[..|srcs| - 1], last.visited);
      Back(rest.visited, last.met + rest.met)
  }

  lemma {:induction false} SkipBack(preds: Graph, h: nat, n: nat, j: nat, visited: set<nat>)
    requires ValidGraph(preds) && n < |preds| && j <= |preds[n]|
    ensures WalkBack(preds, h, n, j, visited) == WalkBack(preds, h, n, Unvisited(preds[n], j, h, visited), visited)
    decreases |preds[n]| - j
  {
    if j < |preds[n]| && (preds[n][j] == h || preds[n][j] in visited) {
      SkipBack(preds, h, n, j + 1, visited);
    }
  }

  ghost predicate BackFits(preds: Graph, stack: Stack) {
    stack.Push? ==> stack.node < |preds| && stack.next <= |preds[stack.node]| && BackFits(preds, stack.below)
  }

  lemma {:induction false} FitsIsIn(preds: Graph, stack: Stack)
    requires BackFits(preds, stack)
    ensures InGraph(preds, stack)
  {
    if stack.Push? {
      FitsIsIn(preds, stack.below);
    }
  }

  lemma NextWalksBack(preds: Graph, h: nat, m: BackMoment)
    requires ValidGraph(preds) && BackFits(preds, m.stack) && InGraph(preds, m.stack)
    ensures BackFits(preds, NextBack(preds, h, m).stack) && InGraph(preds, NextBack(preds, h, m).stack)
    ensures NextBack(preds, h, m).met
            + WalkBackStack(preds, h, NextBack(preds, h, m).stack, NextBack(preds, h, m).visited).met
         == m.met + WalkBackStack(preds, h, m.stack, m.visited).met
  {
    if m.stack.Push? {
      var n, j, below := m.stack.node, m.stack.next, m.stack.below;
      SkipBack(preds, h, n, j, m.visited);
      var k := Unvisited(preds[n], j, h, m.visited);
      if k == |preds[n]| {
        var rest := WalkBackStack(preds, h, below, m.visited).met;
        assert [] + rest == rest;
      } else {
        var p := preds[n][k];
        var above := WalkBack(preds, h, p, 0, m.visited + {p});
        var top := WalkBack(preds, h, n, k + 1, above.visited);
        var rest := WalkBackStack(preds, h, below, top.visited).met;
        assert WalkBackStack(preds, h, Push(n, k + 1, below), above.visited).met == top.met + rest;
        assert m.met + [p] + (above.met + (top.met + rest)) == m.met + ([p] + above.met + top.met + rest);
      }
    }
  }

  lemma {:induction false} BackAfterWalks(preds: Graph, h: nat, srcs: seq<nat>, k: nat)
    requires ValidGraph(preds) && AllIn(preds, srcs)
    ensures var m := BackAfter(preds, h, srcs, k);
            && BackFits(preds, m.stack) && InGraph(preds, m.stack)
            && m.met + WalkBackStack(preds, h, m.stack, m.visited).met
               == WalkLatches(preds, h, srcs, Elements(srcs)).met
  {
    if k == 0 {
      LatchesWalk(preds, h, srcs, Elements(srcs));
      var all := WalkLatches(preds, h, srcs, Elements(srcs)).met;
      assert [] + all == all;
    } else {
      BackAfterWalks(preds, h, srcs, k - 1);
      NextWalksBack(preds, h, BackAfter(preds, h, srcs, k - 1));
    }
  }

  lemma {:induction false} LatchesWalk(preds: Graph, h: nat, srcs: seq<nat>, visited: set<nat>)
    requires ValidGraph(preds) && AllIn(preds, srcs)
    ensures BackFits(preds, LatchStack(srcs)) && InGraph(preds, LatchStack(srcs))
    ensures WalkBackStack(preds, h, LatchStack(srcs), visited) == WalkLatches(preds, h, srcs, visited)
  {
    if srcs != [] {
      LatchesWalk(preds, h, srcs[..|srcs| - 1], WalkBack(preds, h, srcs[|srcs| - 1], 0, visited).visited);
    }
  }

  /** The order in which the search meets the blocks is that of the recursive search from the latches, the last
      one first. */
  lemma MeetOrderIsWalk(preds: Graph, h: nat, srcs: seq<nat>, met: seq<nat>)
    requires ValidGraph(preds) && AllIn(preds, srcs) && IsMeetOrder(preds, h, srcs, met)
    ensures met == WalkLatches(preds, h, srcs, Elements(srcs)).met
  {
    var k: nat :| BackAfter(preds, h, srcs, k).stack.Empty? && BackAfter(preds, h, srcs, k).met == met;
    BackAfterWalks(preds, h, srcs, k);
    assert met + [] == met;
  }
}
