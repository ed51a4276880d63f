/** The search backwards for the blocks of one loop. */
module LoopSearches {
  import opened FiniteSets
  import opened Graphs
  import opened DfsState
  import opened LoopSpec

  ghost predicate PredLists(g: Graph, preds: Graph) {
    && ValidGraph(g) && ValidGraph(preds) && |preds| == |g|
    && (forall p, v :: 0 <= p < |g| && 0 <= v < |g| ==> (p in preds[v] <==> v in g[p]))
  }

  // ----- the search backwards -----

  /** The predecessor `j` of `v` is still to be looked at. */
  ghost predicate Pending(stack: Stack, v: nat, j: nat) {
    stack.Push? && ((stack.node == v && stack.next <= j) || Pending(stack.below, v, j))
  }

  ghost predicate Handled(preds: Graph, h: nat, visited: set<nat>, stack: Stack, v: nat, j: nat) {
    v in visited && v < |preds| && j < |preds[v]| ==>
      preds[v][j] == h || preds[v][j] in visited || Pending(stack, v, j)
  }

  ghost predicate OnStack(stack: Stack, preds: Graph, visited: set<nat>) {
    stack.Push? ==> stack.node in visited && stack.node < |preds| && stack.next <= |preds[stack.node]|
                    && OnStack(stack.below, preds, visited)
  }

  /** The search has visited nodes of the loop only, the latches among them, and every predecessor of a
      visited node is visited, the header, or still to be looked at. */
  ghost predicate LoopSearch(g: Graph, preds: Graph, l: Loops, h: nat, visited: set<nat>, stack: Stack) {
    && PredLists(g, preds) && h in l.latches && h !in visited
    && (forall u :: u in l.latches[h] ==> u in visited)
    && (forall v :: v in visited ==> v < |g| && InLoop(g, l, h, v))
    && OnStack(stack, preds, visited)
    && (forall v, j :: Handled(preds, h, visited, stack, v, j))
  }

  lemma {:induction false} OnStackGrows(stack: Stack, preds: Graph, visited: set<nat>, n: nat)
    requires OnStack(stack, preds, visited)
    ensures OnStack(stack, preds, visited + {n})
  {
    if stack.Push? {
      OnStackGrows(stack.below, preds, visited, n);
    }
  }

  lemma PredInLoop(g: Graph, preds: Graph, l: Loops, h: nat, v: nat, p: nat)
    requires PredLists(g, preds) && v < |g| && InLoop(g, l, h, v) && p in preds[v] && p != h
    ensures p < |g| && InLoop(g, l, h, p)
  {
    var path :| LatchPath(g, l, h, path) && path[0] == v;
    var j :| 0 <= j < |preds[v]| && preds[v][j] == p;
    assert IsPath(g, [p]);
    Appended(g, [p], path);
    assert LatchPath(g, l, h, [p] + path) && ([p] + path)[0] == p;
  }

  /** Dropping a frame whose predecessors have all been looked at. */
  lemma DropFrame(g: Graph, preds: Graph, l: Loops, h: nat, visited: set<nat>, stack: Stack)
    requires LoopSearch(g, preds, l, h, visited, stack) && stack.Push?
    requires forall j :: stack.next <= j < |preds[stack.node]| ==>
        preds[stack.node][j] == h || preds[stack.node][j] in visited
    ensures LoopSearch(g, preds, l, h, visited, stack.below)
  {
    forall v: nat, j: nat ensures Handled(preds, h, visited, stack.below, v, j) {
      assert Handled(preds, h, visited, stack, v, j);
    }
  }

  /** Going on to the unvisited predecessor `k` of the top node. */
  lemma GoOnTo(g: Graph, preds: Graph, l: Loops, h: nat, visited: set<nat>, stack: Stack, k: nat)
    requires LoopSearch(g, preds, l, h, visited, stack) && stack.Push? && stack.next <= k < |preds[stack.node]|
    requires preds[stack.node][k] != h && preds[stack.node][k] !in visited
    requires forall j :: stack.next <= j < k ==> preds[stack.node][j] == h || preds[stack.node][j] in visited
    ensures var n := preds[stack.node][k];
            LoopSearch(g, preds, l, h, visited + {n}, Push(n, 0, stack.(next := k + 1)))
  {
    var n := preds[stack.node][k];
    var stack', visited' := Push(n, 0, stack.(next := k + 1)), visited + {n};
    assert n in preds[stack.node];
    PredInLoop(g, preds, l, h, stack.node, n);
    OnStackGrows(stack.below, preds, visited, n);
    assert OnStack(stack'.below, preds, visited');
    forall v: nat, j: nat ensures Handled(preds, h, visited', stack', v, j) {
      assert Handled(preds, h, visited, stack, v, j);
      assert Pending(stack', v, j) <==> v == n || Pending(stack'.below, v, j);
      assert Pending(stack'.below, v, j) <==> (v == stack.node && k + 1 <= j) || Pending(stack.below, v, j);
    }
  }

  /** A finished search has visited the whole loop. */
  lemma {:induction false} SearchVisitsAll(g: Graph, preds: Graph, l: Loops, h: nat, visited: set<nat>, path: seq<nat>)
    requires LoopSearch(g, preds, l, h, visited, Empty) && LatchPath(g, l, h, path)
    ensures path[0] in visited
    decreases |path|
  {
    if |path| > 1 {
      PathBack(g, path, 1);
      PathEdge(g, path, 0);
      assert LatchPath(g, l, h, path[1..]);
      SearchVisitsAll(g, preds, l, h, visited, path[1..]);
      var v, p := path[1], path[0];
      assert p in preds[v] && p != h;
      var j :| 0 <= j < |preds[v]| && preds[v][j] == p;
      assert Handled(preds, h, visited, Empty, v, j);
    }
  }

  lemma SearchIsExact(g: Graph, preds: Graph, l: Loops, h: nat, visited: set<nat>)
    requires LoopSearch(g, preds, l, h, visited, Empty)
    ensures forall n :: n in visited <==> InLoop(g, l, h, n)
  {
    forall n: nat | InLoop(g, l, h, n) ensures n in visited {
      var path :| LatchPath(g, l, h, path) && path[0] == n;
      SearchVisitsAll(g, preds, l, h, visited, path);
    }
  }

  /** The visited nodes are the latches and those met, each met once. */
  ghost predicate MetOnce(latches: set<nat>, visited: set<nat>, met: seq<nat>) {
    && (forall n :: n in visited <==> n in latches || n in met)
    && (forall n :: n in met ==> n !in latches)
    && (forall i, j :: 0 <= i < |met| && 0 <= j < |met| && met[i] == met[j] ==> i == j)
  }

  lemma MetOneMore(latches: set<nat>, visited: set<nat>, met: seq<nat>, n: nat)
    requires MetOnce(latches, visited, met) && n !in visited
    ensures MetOnce(latches, visited + {n}, met + [n])
    ensures |visited + {n}| == |visited| + 1
  {
  }

  /** The nodes of the loop other than its latches, each once. */
  ghost predicate OncePerNode(g: Graph, l: Loops, h: nat, met: seq<nat>) {
    && (forall n :: n in met <==> InLoop(g, l, h, n) && !(h in l.latches && n in l.latches[h]))
    && (forall i, j :: 0 <= i < |met| && 0 <= j < |met| && met[i] == met[j] ==> i == j)
  }

  lemma VisitedIsBounded(g: Graph, preds: Graph, l: Loops, h: nat, visited: set<nat>, stack: Stack)
    requires LoopSearch(g, preds, l, h, visited, stack)
    ensures |visited| <= |g|
  {
    SubsetSize(visited, Below(|g|));
  }

  // ----- what the search does next is determined -----

  /** The stack, the visited blocks, and those met in their order. */
  datatype BackMoment = BackMoment(stack: Stack, visited: set<nat>, met: seq<nat>)

  /** The first place from `j` on of a block that is neither visited nor the header. */
  function Unvisited(list: seq<nat>, j: nat, h: nat, visited: set<nat>): (k: nat)
    requires j <= |list|
    ensures j <= k <= |list|
    ensures k < |list| ==> list[k] != h && list[k] !in visited
    decreases |list| - j
  {
    if j < |list| && (list[j] == h || list[j] in visited) then Unvisited(list, j + 1, h, visited) else j
  }

  lemma {:induction false} UnvisitedIs(list: seq<nat>, j: nat, h: nat, visited: set<nat>)
    requires j <= |list|
    ensures forall i :: j <= i < Unvisited(list, j, h, visited) ==> list[i] == h || list[i] in visited
    decreases |list| - j
  {
    if j < |list| && (list[j] == h || list[j] in visited) {
      UnvisitedIs(list, j + 1, h, visited);
    }
  }

  /** One round: on to the next unvisited predecessor of the top block, or down the stack. */
  function NextBack(preds: Graph, h: nat, m: BackMoment): BackMoment {
    match m.stack
    case Empty => m
    case Push(n, j, below) =>
      if n >= |preds| || j > |preds[n]| then m.(stack := below)
      else
        var k := Unvisited(preds[n], j, h, m.visited);
        if k == |preds[n]| then m.(stack := below)
        else
          var p := preds[n][k];
          BackMoment(Push(p, 0, Push(n, k + 1, below)), m.visited + {p}, m.met + [p])
  }

  /** The latches, the last one on top. */
  function LatchStack(srcs: seq<nat>): Stack {
    if srcs == [] then Empty else Push(srcs[|srcs| - 1], 0, LatchStack(srcs[..|srcs| - 1]))
  }

  function BackAfter(preds: Graph, h: nat, srcs: seq<nat>, k: nat): BackMoment {
    if k == 0 then BackMoment(LatchStack(srcs), Elements(srcs), [])
    else NextBack(preds, h, BackAfter(preds, h, srcs, k - 1))
  }

  /** The blocks that the search meets, in this order: backwards from the latches, depth first. */
  ghost predicate IsMeetOrder(preds: Graph, h: nat, srcs: seq<nat>, met: seq<nat>) {
    exists k: nat :: BackAfter(preds, h, srcs, k).stack.Empty? && BackAfter(preds, h, srcs, k).met == met
  }

  lemma {:induction false} BackStays(preds: Graph, h: nat, srcs: seq<nat>, k: nat, j: nat)
    requires k <= j && BackAfter(preds, h, srcs, k).stack.Empty?
    ensures BackAfter(preds, h, srcs, j) == BackAfter(preds, h, srcs, k)
  {
    if k < j {
      BackStays(preds, h, srcs, k, j - 1);
    }
  }

  /** There is only one such order. */
  lemma OneMeetOrder(preds: Graph, h: nat, srcs: seq<nat>, a: seq<nat>, b: seq<nat>)
    requires IsMeetOrder(preds, h, srcs, a) && IsMeetOrder(preds, h, srcs, b)
    ensures a == b
  {
    var k: nat :| BackAfter(preds, h, srcs, k).stack.Empty? && BackAfter(preds, h, srcs, k).met == a;
    var j: nat :| BackAfter(preds, h, srcs, j).stack.Empty? && BackAfter(preds, h, srcs, j).met == b;
    if k <= j {
      BackStays(preds, h, srcs, k, j);
    } else {
      BackStays(preds, h, srcs, j, k);
    }
  }

  // ----- and keeps the invariant -----

  ghost predicate LatchesFit(g: Graph, l: Loops, h: nat) {
    h in l.latches && h < |g| && forall u :: u in l.latches[h] ==> u < |g| && u != h
  }

  lemma {:induction false} LatchesOnStack(preds: Graph, srcs: seq<nat>, visited: set<nat>)
    requires forall u :: u in srcs ==> u in visited && u < |preds|
    ensures OnStack(LatchStack(srcs), preds, visited)
    ensures forall v: nat, j: nat :: v in srcs ==> Pending(LatchStack(srcs), v, j)
  {
    if srcs != [] {
      var front, last := srcs[..|srcs| - 1], srcs[|srcs| - 1];
      assert srcs == front + [last] && forall u :: u in front ==> u in srcs;
      LatchesOnStack(preds, front, visited);
    }
  }

  lemma StartsBack(g: Graph, preds: Graph, l: Loops, h: nat)
    requires PredLists(g, preds) && LatchesFit(g, l, h)
    ensures LoopSearch(g, preds, l, h, Elements(l.latches[h]), LatchStack(l.latches[h]))
    ensures MetOnce(Elements(l.latches[h]), Elements(l.latches[h]), [])
  {
    var srcs := l.latches[h];
    LatchesOnStack(preds, srcs, Elements(srcs));
    forall v | v in Elements(srcs) ensures v < |g| && InLoop(g, l, h, v) {
      assert LatchPath(g, l, h, [v]);
    }
  }

  lemma {:induction false} BackKeeps(g: Graph, preds: Graph, l: Loops, h: nat, k: nat)
    requires PredLists(g, preds) && LatchesFit(g, l, h)
    ensures var m := BackAfter(preds, h, l.latches[h], k);
            LoopSearch(g, preds, l, h, m.visited, m.stack) && MetOnce(Elements(l.latches[h]), m.visited, m.met)
  {
    if k == 0 {
      StartsBack(g, preds, l, h);
    } else {
      BackKeeps(g, preds, l, h, k - 1);
      NextBackKeeps(g, preds, l, h, BackAfter(preds, h, l.latches[h], k - 1));
    }
  }

  lemma NextBackKeeps(g: Graph, preds: Graph, l: Loops, h: nat, m: BackMoment)
    requires PredLists(g, preds) && LatchesFit(g, l, h)
    requires LoopSearch(g, preds, l, h, m.visited, m.stack) && MetOnce(Elements(l.latches[h]), m.visited, m.met)
    ensures var m' := NextBack(preds, h, m);
            LoopSearch(g, preds, l, h, m'.visited, m'.stack) && MetOnce(Elements(l.latches[h]), m'.visited, m'.met)
  {
    if m.stack.Push? {
      var n, j := m.stack.node, m.stack.next;
      UnvisitedIs(preds[n], j, h, m.visited);
      var k := Unvisited(preds[n], j, h, m.visited);
      if k == |preds[n]| {
        DropFrame(g, preds, l, h, m.visited, m.stack);
      } else {
        GoOnTo(g, preds, l, h, m.visited, m.stack, k);
        MetOneMore(Elements(l.latches[h]), m.visited, m.met, preds[n][k]);
      }
    }
  }

  /** The variables of the search after `k` rounds. */
  ghost predicate BackAt(g: Graph, preds: Graph, h: nat, srcs: seq<nat>, k: nat, stack: Stack, visited: set<nat>,
                         met: seq<nat>) {
    && BackAfter(preds, h, srcs, k) == BackMoment(stack, visited, met) && |visited| <= |g|
    && (stack.Push? ==> stack.node < |preds| && stack.next <= |preds[stack.node]|)
  }

  lemma BackFacts(g: Graph, preds: Graph, l: Loops, h: nat, k: nat)
    requires PredLists(g, preds) && LatchesFit(g, l, h)
    ensures var m := BackAfter(preds, h, l.latches[h], k);
            BackAt(g, preds, h, l.latches[h], k, m.stack, m.visited, m.met)
  {
    BackKeeps(g, preds, l, h, k);
    var m := BackAfter(preds, h, l.latches[h], k);
    VisitedIsBounded(g, preds, l, h, m.visited, m.stack);
  }

  /** One round, as the loop of the search does it. */
  lemma BackRound(g: Graph, preds: Graph, l: Loops, h: nat, k: nat, stack: Stack, visited: set<nat>, met: seq<nat>)
    requires PredLists(g, preds) && LatchesFit(g, l, h)
    requires BackAt(g, preds, h, l.latches[h], k, stack, visited, met) && stack.Push?
    ensures var j := Unvisited(preds[stack.node], stack.next, h, visited);
            if j == |preds[stack.node]| then BackAt(g, preds, h, l.latches[h], k + 1, stack.below, visited, met)
            else
              var n := preds[stack.node][j];
              BackAt(g, preds, h, l.latches[h], k + 1, Push(n, 0, stack.(next := j + 1)), visited + {n}, met + [n])
  {
    BackFacts(g, preds, l, h, k + 1);
    assert BackAfter(preds, h, l.latches[h], k + 1) == NextBack(preds, h, BackMoment(stack, visited, met));
  }

  /** The order has every block of the loop once, besides the latches. */
  lemma MeetOrderIsOnce(g: Graph, preds: Graph, l: Loops, h: nat, met: seq<nat>)
    requires PredLists(g, preds) && LatchesFit(g, l, h) && IsMeetOrder(preds, h, l.latches[h], met)
    ensures OncePerNode(g, l, h, met)
  {
    var k: nat :| BackAfter(preds, h, l.latches[h], k).stack.Empty? && BackAfter(preds, h, l.latches[h], k).met == met;
    BackKeeps(g, preds, l, h, k);
    SearchIsExact(g, preds, l, h, BackAfter(preds, h, l.latches[h], k).visited);
  }
}
