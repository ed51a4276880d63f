/** A program the elimination changes: the tree of the ladder graph reports a dominator that is none. */
module LadderProgram {
  import opened Wrappers
  import opened Arithmetic
  import opened Graphs
  import opened DfsState
  import opened Dfs
  import opened DomSpec
  import opened Dominators
  import opened SearchSteps
  import opened Occurrences
  import opened Code
  import opened Runs
  import opened CheckRuns
  import opened Redundancy
  import opened ChecksEliminations

  // ----- the search -----

  /** What the search reports: it goes from 0 over 1, 2 and 3 to 4 and finds nothing new on the way back. */
  function Events(): seq<Event> {
    [Discover(0), Discover(1), Discover(2), Discover(3), Discover(4),
     Finish(4), Finish(3), Finish(2), Finish(1), Finish(0)]
  }

  /** The views of the search, look by look. */
  function Views(): seq<Sight> {
    [Sight(Push(0, 0, Empty), Events()[..1], [0]),
     Sight(Push(1, 0, Push(0, 1, Empty)), Events()[..2], [0, 1]),
     Sight(Push(2, 0, Push(1, 1, Push(0, 1, Empty))), Events()[..3], [0, 1, 2]),
     Sight(Push(3, 0, Push(2, 1, Push(1, 1, Push(0, 1, Empty)))), Events()[..4], [0, 1, 2, 3]),
     Sight(Push(4, 0, Push(3, 1, Push(2, 1, Push(1, 1, Push(0, 1, Empty))))), Events()[..5], [0, 1, 2, 3, 4]),
     Sight(Push(3, 1, Push(2, 1, Push(1, 1, Push(0, 1, Empty)))), Events()[..6], [0, 1, 2, 3, 4]),
     Sight(Push(2, 1, Push(1, 1, Push(0, 1, Empty))), Events()[..7], [0, 1, 2, 3, 4]),
     Sight(Push(2, 2, Push(1, 1, Push(0, 1, Empty))), Events()[..7], [0, 1, 2, 3, 4]),
     Sight(Push(1, 1, Push(0, 1, Empty)), Events()[..8], [0, 1, 2, 3, 4]),
     Sight(Push(1, 2, Push(0, 1, Empty)), Events()[..8], [0, 1, 2, 3, 4]),
     Sight(Push(0, 1, Empty), Events()[..9], [0, 1, 2, 3, 4]),
     Sight(Push(0, 2, Empty), Events()[..9], [0, 1, 2, 3, 4]),
     Sight(Empty, Events()[..10], [0, 1, 2, 3, 4])]
  }

  lemma ViewsFollow(i: nat)
    requires i < 12
    ensures IsLook(Ladder(), Views(), i)
  {
  }

  lemma LadderOrder()
    ensures IsSearchOrder(Ladder(), 0, Named(5))
  {
    assert Views()[12].order == Named(5);
    Begins(Ladder(), 0);
    forall i | 0 <= i < 12 ensures IsLook(Ladder(), Views(), i) {
      ViewsFollow(i);
    }
    LooksOn(Ladder(), 0, Views(), 12);
    var s := Ends(Ladder(), 0, Views()[12]);
  }

  lemma LadderIsNamed()
    ensures NamedByTime(Ladder(), LadderPreds()) && MatchingPreds(Ladder(), 0, LadderPreds())
  {
    LadderOrder();
    LadderIsValid();
    NamedMatches(Ladder(), LadderPreds());
  }

  // ----- the program -----

  /** A value in block 0, and two zero checks of it, in block 2 and in block 4. */
  function Checks(): Program {
    Program([Node(Other, I64, []), Node(ZeroCheck, I64, [0]), Node(ZeroCheck, I64, [0])], [[0], [], [1], [], [2]])
  }

  function Home(): seq<nat> { [0, 2, 4] }

  function Users(): map<nat, set<nat>> { map[0 := {1, 2}] }

  /** The class takes this program. */
  lemma PassAccepts()
    ensures var p := Checks();
            && WellFormed(p.nodes) && |Home()| == |p.nodes| && Placed(p.blocks, Home()) && IndicesDiffer(p.nodes)
            && UsersFit(p, Home(), {}, Users()) && Ssa(Ladder(), 0, p, Home())
  {
    var p, home := Checks(), Home();
    assert p.blocks[0][0] == 0 && p.blocks[2][0] == 1 && p.blocks[4][0] == 2;
    forall v: nat ensures UsersOf(p, home, {}, Users(), v) {
      forall u: nat ensures u in {1, 2} <==> IsUser(p, home, {}, 0, u) {
      }
    }
    forall a: nat | a < 3 ensures OperandsAbove(Ladder(), 0, p, home, a) {
      forall k | k in Kills(p.nodes, a) ensures Above(Ladder(), 0, p.blocks, home, k, a) {
        assert k == 0;
        EntryDominates(home[a]);
      }
    }
  }

  lemma EntryDominates(n: nat)
    ensures Dominates(Ladder(), 0, 0, n)
  {
    forall path | EntryPath(Ladder(), 0, path, n) ensures 0 in path {
      assert path[0] == 0;
    }
  }

  /** Goes from block 0 over 1 and 3 to 4, and ends there. */
  function Walker(): Machine<nat> {
    Machine((id, prev, vals, w) => (0, w),
            (b, w) => if b == 0 || b == 3 then Some(0) else if b == 1 then Some(1) else None)
  }

  lemma SecondIsRedundant(times: map<nat, nat>)
    requires TreeFits(LadderPreds(), times) && 2 in times && 4 in times && times[2] == 2 && times[4] == 4
    ensures EqualAbove(Checks(), Home(), LadderPreds(), times, 1, 2)
  {
    var p, home, preds := Checks(), Home(), LadderPreds();
    LadderIdom();
    IdomIsEarlier(preds, 4);
    assert p.blocks[2][0] == 1 && p.blocks[4][0] == 2;
    assert Ancestor(preds, 2, 2);
    assert Ancestor(preds, 2, 4);
  }

  lemma FirstIsNot(times: map<nat, nat>)
    requires TreeFits(LadderPreds(), times) && 2 in times && 4 in times && times[2] == 2 && times[4] == 4
    ensures !Redundant(Checks(), Home(), LadderPreds(), times, 1)
  {
    var p, home, preds := Checks(), Home(), LadderPreds();
    PassAccepts();
    if Redundant(p, home, preds, times, 1) {
      var a: nat :| EqualAbove(p, home, preds, times, a, 1);
      assert a == 1 || a == 2;
      if a == 2 {
        AncestorIsEarlier(preds, 4, 2);
      }
      TreeAboveIsStrict(p, home, preds, times, a, 1);
    }
  }

  /** Whatever tables the builder ends with, of all checks the pass erases the second one ... */
  lemma SecondIsErased(order: seq<nat>, preds: seq<seq<nat>>, times: map<nat, nat>, rpo: seq<nat>)
    requires Renames(Ladder(), 0, LadderPreds(), order, preds) && IsTimes(Ladder(), 0, order, times)
    requires TreeFits(preds, times) && forall b :: b in rpo <==> Reachable(Ladder(), 0, b)
    ensures forall c :: c in {2} <==> IsErased(Checks(), Home(), preds, times, rpo, c)
  {
    LadderIsNamed();
    NamedBuilt(Ladder(), LadderPreds(), order, preds);
    NamedTimes(Ladder(), LadderPreds(), times, 2);
    NamedTimes(Ladder(), LadderPreds(), times, 4);
    AllReachable(Ladder(), LadderPreds(), 4);
    forall c: nat ensures c in {2} <==> IsErased(Checks(), Home(), preds, times, rpo, c) {
      ErasedAt(times, rpo, c);
    }
  }

  lemma ErasedAt(times: map<nat, nat>, rpo: seq<nat>, c: nat)
    requires TreeFits(LadderPreds(), times) && 2 in times && 4 in times && times[2] == 2 && times[4] == 4 && 4 in rpo
    ensures c in {2} <==> IsErased(Checks(), Home(), LadderPreds(), times, rpo, c)
  {
    SecondIsRedundant(times);
    FirstIsNot(times);
    assert c < 3 ==> c == 0 || c == 1 || c == 2;
  }

  /** ... and without it a run that failed there returns. */
  lemma RunChanges()
    ensures var p, s, t := Checks(), State(map[], 0), State(map[0 := 0], 0);
            && RunFor(Walker(), Ladder(), 0, p, s, 4) == Stopped([0, 1, 3, 4], 2, t)
            && RunFor(Walker(), Ladder(), 0, Erase(p, {2}), s, 4) == Returned([0, 1, 3, 4], t)
  {
    var p, p' := Checks(), Erase(Checks(), {2});
    ErasedBlocks();
    ThreeBlocks(p);
    ThreeBlocks(p');
    LastBlock(p);
    LastBlock(p');
  }

  lemma ErasedBlocks()
    ensures Erase(Checks(), {2}).blocks == [[0], [], [1], [], []]
  {
    assert [0][..0] == [] && [1][..0] == [] && [2][..0] == [];
    assert Keep([0], {2}) == [0] && Keep([1], {2}) == [1] && Keep([2], {2}) == [] && Keep([], {2}) == [];
  }

  lemma LastBlock(p: Program)
    requires p.nodes == Checks().nodes && |p.blocks| == 5 && (p.blocks[4] == [2] || p.blocks[4] == [])
    requires RunFor(Walker(), Ladder(), 0, p, State(map[], 0), 3) == At([0, 1, 3, 4], State(map[0 := 0], 0))
    ensures RunFor(Walker(), Ladder(), 0, p, State(map[], 0), 4)
         == if p.blocks[4] == [2] then Stopped([0, 1, 3, 4], 2, State(map[0 := 0], 0))
            else Returned([0, 1, 3, 4], State(map[0 := 0], 0))
  {
    var m, t := Walker(), State(map[0 := 0], 0);
    assert [2][..0] == [] && Exec(m, p.nodes, 3, [], t) == Ran(t);
    assert Exec(m, p.nodes, 3, [2], t) == Failed(2, t);
  }

  lemma ThreeBlocks(p: Program)
    requires p.nodes == Checks().nodes
    requires |p.blocks| == 5 && p.blocks[0] == [0] && p.blocks[1] == [] && p.blocks[3] == []
    ensures RunFor(Walker(), Ladder(), 0, p, State(map[], 0), 3) == At([0, 1, 3, 4], State(map[0 := 0], 0))
  {
    var m, g, s, t := Walker(), Ladder(), State(map[], 0), State(map[0 := 0], 0);
    assert RunFor(m, g, 0, p, s, 0) == At([0], s);
    assert [0][..0] == [] && Exec(m, p.nodes, 0, [], s) == Ran(s);
    assert Exec(m, p.nodes, 0, [0], s) == Ran(t);
    assert RunFor(m, g, 0, p, s, 1) == At([0, 1], t);
    assert RunFor(m, g, 0, p, s, 2) == At([0, 1, 3], t);
  }
}
