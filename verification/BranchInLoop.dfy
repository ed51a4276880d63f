/** A loop with a branch in its body: the linear order puts one side of the branch before it. */
module BranchInLoop {
  import opened Wrappers
  import opened FiniteSets
  import opened Graphs
  import opened DfsState
  import opened Dfs
  import opened Ir
  import opened LivenessProofs
  import opened LoopSpec
  import opened LoopTrace
  import opened LoopFilling
  import opened LoopOwnership
  import opened LoopSearches
  import opened LoopAnalyzers
  import opened LinearOrders
  import opened BlockLayouts
  import opened BlockOrders

  /** The loop of 1 branches at 2 into 3 and 4, which meet in the latch 6; 5 comes behind the loop. */
  function Branching(): Graph {
    [[1], [2, 5], [3, 4], [6], [6], [], [1]]
  }

  function BranchingPreds(): Graph {
    [[], [0, 6], [1], [2], [2], [1], [3, 4]]
  }

  function OneLoop(): Loops {
    Loops([1], map[1 := [6]])
  }

  lemma PredsMatch()
    ensures PredLists(Branching(), BranchingPreds())
  {
  }

  // ----- its loop -----

  /** Every way to another block comes by 1. */
  lemma {:induction false} ThroughHead(path: seq<nat>)
    requires IsPath(Branching(), path) && path[0] == 0 && path[|path| - 1] != 0
    ensures 1 in path
  {
    PathEdge(Branching(), path, |path| - 2);
    if path[|path| - 2] != 0 {
      PathFront(Branching(), path, |path| - 1);
      ThroughHead(path[..|path| - 1]);
    }
  }

  lemma HeadDominates(n: nat)
    requires n != 0
    ensures Dominates(Branching(), 0, 1, n)
  {
    forall path | EntryPath(Branching(), 0, path, n) ensures 1 in path {
      ThroughHead(path);
    }
  }

  /** A way to `n` on which only the blocks stand that all ways to it have, or one side of the branch. */
  function WayTo(n: nat): seq<nat> {
    if n == 0 then [0]
    else if n == 1 then [0] + [1]
    else if n == 2 then [0] + [1] + [2]
    else if n == 3 || n == 4 then [0] + [1] + [2] + [n]
    else if n == 5 then [0] + [1] + [5]
    else [0] + [1] + [2] + [3] + [6]
  }

  lemma ShortWays()
    ensures var g := Branching();
            EntryPath(g, 0, WayTo(0), 0) && EntryPath(g, 0, WayTo(1), 1) && EntryPath(g, 0, WayTo(2), 2)
              && EntryPath(g, 0, WayTo(5), 5)
  {
    var g := Branching();
    assert IsPath(g, [0]) && IsPath(g, [1]) && IsPath(g, [2]) && IsPath(g, [5]);
    Appended(g, [0], [1]);
    Appended(g, [0] + [1], [2]);
    Appended(g, [0] + [1], [5]);
  }

  lemma LongWays()
    ensures var g := Branching();
            EntryPath(g, 0, WayTo(3), 3) && EntryPath(g, 0, WayTo(4), 4) && EntryPath(g, 0, WayTo(6), 6)
  {
    var g := Branching();
    ShortWays();
    assert IsPath(g, [3]) && IsPath(g, [4]) && IsPath(g, [6]);
    Appended(g, [0] + [1] + [2], [3]);
    Appended(g, [0] + [1] + [2], [4]);
    Appended(g, [0] + [1] + [2] + [3], [6]);
  }

  lemma IsReached(n: nat)
    requires n < 7
    ensures EntryPath(Branching(), 0, WayTo(n), n) && Reachable(Branching(), 0, n)
  {
    ShortWays();
    LongWays();
  }

  /** Only the edge from 6 to 1 leads to a dominator. */
  lemma OnlyLatch(h: nat, u: nat)
    requires IsLatch(Branching(), 0, h, u)
    ensures h == 1 && u == 6
  {
    IsReached(u);
    assert h in WayTo(u);
  }

  lemma LatchFound(s: Search, l: Loops)
    requires Natural(Branching(), 0, l) && Finished(Branching(), 0, s) && SourcesAre(s.trace, l.latches)
    requires NoEdgeTwice(l)
    ensures l.latches == map[1 := [6]]
  {
    HeadDominates(6);
    IsReached(6);
    EdgeToDominator(Branching(), 0, s, l, 6, 1);
    forall h, u | h in l.latches && u in l.latches[h] ensures h == 1 && u == 6 {
      OnlyLatch(h, u);
    }
    OnlyOnce(l.latches[1], 6);
    forall h | h in l.latches ensures h == 1 {
      assert Sources(s.trace, h) != [];
      assert l.latches[h][0] in l.latches[h];
    }
  }

  /** What every search finds. */
  lemma LoopsFound(s: Search, l: Loops)
    requires Natural(Branching(), 0, l) && Finished(Branching(), 0, s) && SourcesAre(s.trace, l.latches)
    requires NoEdgeTwice(l)
    ensures l == OneLoop()
  {
    LatchFound(s, l);
    forall i | 0 <= i < |l.heads| ensures l.heads[i] == 1 {
      assert l.heads[i] in l.heads;
    }
    assert 1 in l.heads;
    assert |l.heads| > 1 ==> Ordered(Branching(), 0, l.heads[0], l.heads[1]);
  }

  lemma OnlyOnce(list: seq<nat>, n: nat)
    requires NoRepeat(list) && n in list && forall u :: u in list ==> u == n
    ensures list == [n]
  {
    if |list| > 1 {
      assert list[0] in list && list[1] in list;
      OnePlace(list, 0, 1);
    }
  }

  // ----- the search backwards -----

  /** The moments of the search from the latch: over 3 to 2, where the header ends it, and then to 4. */
  function Moments(): seq<BackMoment> {
    [BackMoment(Push(6, 0, Empty), {6}, []),
     BackMoment(Push(3, 0, Push(6, 1, Empty)), {6, 3}, [3]),
     BackMoment(Push(2, 0, Push(3, 1, Push(6, 1, Empty))), {6, 3, 2}, [3, 2]),
     BackMoment(Push(3, 1, Push(6, 1, Empty)), {6, 3, 2}, [3, 2]),
     BackMoment(Push(6, 1, Empty), {6, 3, 2}, [3, 2]),
     BackMoment(Push(4, 0, Push(6, 2, Empty)), {6, 3, 2, 4}, [3, 2, 4]),
     BackMoment(Push(6, 2, Empty), {6, 3, 2, 4}, [3, 2, 4]),
     BackMoment(Empty, {6, 3, 2, 4}, [3, 2, 4])]
  }

  lemma MomentFollows(i: nat)
    requires i < 7
    ensures Moments()[i + 1] == NextBack(BranchingPreds(), 1, Moments()[i])
  {
  }

  lemma {:induction false} MomentIs(k: nat)
    requires k < 8
    ensures BackAfter(BranchingPreds(), 1, [6], k) == Moments()[k]
  {
    if k == 0 {
      assert LatchStack([]) == Empty && LatchStack([6]) == Push(6, 0, Empty) && Elements([6]) == {6};
    } else {
      MomentIs(k - 1);
      MomentFollows(k - 1);
    }
  }

  lemma MetBackwards()
    ensures IsMeetOrder(BranchingPreds(), 1, [6], [3, 2, 4])
  {
    MomentIs(7);
  }

  // ----- its parts -----

  lemma {:induction false} StaysInside(path: seq<nat>)
    requires IsPath(Branching(), path) && 1 !in path && path[|path| - 1] == 6
    ensures path[0] in {2, 3, 4, 6}
    decreases |path|
  {
    if |path| > 1 {
      PathBack(Branching(), path, 1);
      PathEdge(Branching(), path, 0);
      StaysInside(path[1..]);
    }
  }

  lemma LoopHas(n: nat)
    ensures InLoop(Branching(), OneLoop(), 1, n) <==> n in {2, 3, 4, 6}
  {
    var g, l := Branching(), OneLoop();
    if n in {2, 3, 4, 6} {
      assert IsPath(g, [2]) && IsPath(g, [3]) && IsPath(g, [4]) && IsPath(g, [6]);
      Appended(g, [3], [6]);
      Appended(g, [4], [6]);
      Appended(g, [2], [3] + [6]);
      var path := if n == 6 then [6] else if n == 2 then [2] + ([3] + [6]) else [n] + [6];
      assert LatchPath(g, l, 1, path) && path[0] == n;
    }
    if InLoop(g, l, 1, n) {
      var path :| LatchPath(g, l, 1, path) && path[0] == n;
      StaysInside(path);
    }
  }

  lemma OwnedByLoop(n: nat)
    requires n in {2, 3, 4, 6}
    ensures Owner(Branching(), OneLoop(), n) == Some(1)
  {
    LoopHas(n);
    assert FirstLoop(Branching(), OneLoop(), 0, n) == None;
  }

  lemma PartsMetAre(g: Graph, l: Loops)
    requires Owner(g, l, 2) == Some(1) && Owner(g, l, 3) == Some(1) && Owner(g, l, 4) == Some(1)
    ensures PartsMet(g, l, 1, [3, 2, 4]) == [Node(3), Node(2), Node(4)]
  {
    assert [3, 2, 4][..2] == [3, 2] && [3, 2][..1] == [3] && [3][..0] == [];
    assert PartsMet(g, l, 1, []) == [];
    assert PartsMet(g, l, 1, [3]) == [Node(3)];
    assert PartsMet(g, l, 1, [3, 2]) == [Node(3), Node(2)];
  }

  lemma PartsOfBranch()
    ensures PartsFrom(Branching(), OneLoop(), 1, [3, 2, 4]) == [Node(6), Node(3), Node(2), Node(4)]
  {
    OwnedByLoop(2);
    OwnedByLoop(3);
    OwnedByLoop(4);
    PartsMetAre(Branching(), OneLoop());
    assert NodesOf([]) == [] && NodesOf([6]) == [Node(6)];
  }

  /** The search backwards meets 2 before 4, although 2 leads to 4. */
  lemma BranchComesFirst()
    ensures !SuccessorsFirst(Branching(), BranchingPreds(), OneLoop(), 1)
  {
    var g, l := Branching(), OneLoop();
    MetBackwards();
    PartsOfBranch();
    var parts := PartsFrom(g, l, 1, [3, 2, 4]);
    assert HasEdge(g, 2, 4) && Holds(g, l, parts[2], 2) && Holds(g, l, parts[3], 4);
    assert Leads(g, l, parts[2], parts[3]);
  }

  /** However the analysis goes on the graph: laid out in the linear order, the code is not as liveness wants it. */
  lemma BranchIsNotContiguous(s: Search, l: Loops, body: map<nat, seq<Item>>, order: seq<nat>, code: Code)
    requires OrderOf(Branching(), 0, BranchingPreds(), s, l, body, order) && LaidOut(Branching(), l, order, code)
    ensures !LoopsContiguous(code)
  {
    LoopsFound(s, l);
    BranchComesFirst();
    LoopsContiguousIff(Branching(), 0, BranchingPreds(), s, l, body, order, code);
  }

  // ----- the order -----

  lemma LoopLaid(body: map<nat, seq<Item>>)
    requires Nests([1], body) && 1 in body && body[1] == [Node(6), Node(3), Node(2), Node(4)]
    ensures LoopOrder([1], body, 1) == [1, 4, 2, 3, 6]
  {
    var parts, i := body[1], Place([1], 1);
    assert parts[..3] == [Node(6), Node(3), Node(2)] && [Node(6), Node(3), Node(2)][..2] == [Node(6), Node(3)];
    assert [Node(6), Node(3)][..1] == [Node(6)] && [Node(6)][..0] == [];
    assert PartsOrder([1], body, [], i) == [] && PartsOrder([1], body, [Node(6)], i) == [6];
    assert PartsOrder([1], body, [Node(6), Node(3)], i) == [3, 6];
    assert PartsOrder([1], body, [Node(6), Node(3), Node(2)], i) == [2, 3, 6];
  }

  /** A block in no loop is laid in a later unit than a block that dominates it. */
  lemma LaterUnit(g: Graph, entry: nat, l: Loops, rpo: seq<nat>, a: nat, b: nat)
    requires DominatorsFirst(g, entry, rpo) && Dominates(g, entry, a, b) && Reachable(g, entry, a)
             && Reachable(g, entry, b)
    requires a != b && b !in l.latches && forall h :: !InLoop(g, l, h, b)
    ensures Unit(g, l, rpo, |rpo|, a) < Unit(g, l, rpo, |rpo|, b)
  {
    var i := IsCovered(g, entry, l, rpo, a);
    var k := IsCovered(g, entry, l, rpo, b);
    assert Dominates(g, entry, rpo[i], rpo[k]);
    UnitIs(g, l, rpo, |rpo|, a);
    UnitIs(g, l, rpo, |rpo|, b);
  }

  lemma ExitUnit(rpo: seq<nat>)
    requires DominatorsFirst(Branching(), 0, rpo)
    ensures Unit(Branching(), OneLoop(), rpo, |rpo|, 1) < Unit(Branching(), OneLoop(), rpo, |rpo|, 5)
  {
    IsReached(1);
    IsReached(5);
    HeadDominates(5);
    forall h ensures !InLoop(Branching(), OneLoop(), h, 5) {
      if h == 1 {
        LoopHas(5);
      }
    }
    LaterUnit(Branching(), 0, OneLoop(), rpo, 1, 5);
  }

  lemma SevenBlocks(order: seq<nat>)
    requires NoRepeat(order) && forall n: nat :: n in order <==> n < 7
    ensures |order| == 7
  {
    NoRepeatSize(order);
    assert Elements(order) == {0, 1, 2, 3, 4, 5, 6};
  }

  lemma PiecesLeft(order: seq<nat>, a: seq<nat>, b: seq<nat>, q: nat)
    requires order == a + [1, 4, 2, 3, 6] + b && |order| == 7 && order[0] == 0
    requires |a| < q < |order| && order[q] == 5
    ensures order == [0, 1, 4, 2, 3, 6, 5]
  {
    assert order[|a|] == 1 && order[|a| + 1] == 4 && order[|a| + 2] == 2 && order[|a| + 3] == 3 && order[|a| + 4] == 6;
    assert q >= |a| + 5;
    assert |a| == 1 && |b| == 1 && q == 6;
  }

  lemma LoopIsPiece(body: map<nat, seq<Item>>, order: seq<nat>)
    requires Nests([1], body) && BodiesMet(Branching(), BranchingPreds(), OneLoop(), body)
    requires forall h :: h in [1] ==> Piece(order, LoopOrder([1], body, h))
    ensures Piece(order, [1, 4, 2, 3, 6])
  {
    BodyFound(body);
    LoopLaid(body);
    assert 1 in [1];
  }

  lemma ExitBehind(order: seq<nat>, p: nat, q: nat)
    requires FollowsSearch(Branching(), 0, OneLoop(), order)
    requires p < |order| && q < |order| && order[p] == 1 && order[q] == 5
    ensures p < q
  {
    var rpo, s :| IsReversePostOrder(Branching(), 0, rpo, s) && InUnits(Branching(), OneLoop(), rpo, |rpo|, order);
    ReversePostOrderServes(Branching(), 0, rpo, s);
    ExitUnit(rpo);
  }

  lemma BlocksOf(order: seq<nat>)
    requires NoRepeat(order) && forall n :: n in order <==> Reachable(Branching(), 0, n)
    ensures |order| == 7 && 5 in order
  {
    forall n: nat ensures n in order <==> n < 7 {
      OnlyThese(n);
    }
    SevenBlocks(order);
  }

  lemma OrderOfPieces(order: seq<nat>)
    requires Piece(order, [1, 4, 2, 3, 6]) && FollowsSearch(Branching(), 0, OneLoop(), order)
    requires |order| == 7 && order[0] == 0 && 5 in order
    ensures order == [0, 1, 4, 2, 3, 6, 5]
  {
    var a, b :| order == a + [1, 4, 2, 3, 6] + b;
    var q: nat :| q < |order| && order[q] == 5;
    assert order[|a|] == 1;
    ExitBehind(order, |a|, q);
    PiecesLeft(order, a, b, q);
  }

  /** What the order of the graph has of every linear order. */
  ghost predicate IsOrder(body: map<nat, seq<Item>>, order: seq<nat>) {
    && NoRepeat(order) && order != [] && order[0] == 0 && FollowsSearch(Branching(), 0, OneLoop(), order)
    && Nests([1], body) && BodiesMet(Branching(), BranchingPreds(), OneLoop(), body)
    && (forall n :: n in order <==> Reachable(Branching(), 0, n))
    && (forall h :: h in [1] ==> Piece(order, LoopOrder([1], body, h)))
  }

  lemma OrderIs(body: map<nat, seq<Item>>, order: seq<nat>)
    requires IsOrder(body, order)
    ensures order == [0, 1, 4, 2, 3, 6, 5]
  {
    LoopIsPiece(body, order);
    BlocksOf(order);
    OrderOfPieces(order);
  }

  /** The linear order of the graph. */
  lemma OrderFound(s: Search, l: Loops, body: map<nat, seq<Item>>, order: seq<nat>)
    requires OrderOf(Branching(), 0, BranchingPreds(), s, l, body, order)
    ensures l == OneLoop() && order == [0, 1, 4, 2, 3, 6, 5]
  {
    LoopsFound(s, l);
    OrderIs(body, order);
  }

  lemma OnlyThese(n: nat)
    ensures Reachable(Branching(), 0, n) <==> n < 7
  {
    if n < 7 {
      IsReached(n);
    }
  }

  lemma BodyFound(body: map<nat, seq<Item>>)
    requires BodiesMet(Branching(), BranchingPreds(), OneLoop(), body)
    ensures 1 in body && body[1] == [Node(6), Node(3), Node(2), Node(4)]
  {
    assert IsBodyMet(Branching(), BranchingPreds(), OneLoop(), body, 1);
    var met :| IsMeetOrder(BranchingPreds(), 1, [6], met) && body[1] == PartsFrom(Branching(), OneLoop(), 1, met);
    MetBackwards();
    OneMeetOrder(BranchingPreds(), 1, [6], met, [3, 2, 4]);
    PartsOfBranch();
  }
}
