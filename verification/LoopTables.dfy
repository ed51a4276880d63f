/** What the tables of the loop analyzer hold in any graph, with irreducible loops too. */
module LoopTables {
  import opened FiniteSets
  import opened Graphs
  import opened DfsState
  import opened Dfs
  import opened Dominators
  import opened LoopSpec
  import opened LoopTrace
  import opened LoopFilling
  import opened LoopSearches
  import opened LoopAnalyzers

  // ----- the tables are determined -----

  lemma {:induction false} ListsOnce(a: seq<nat>, b: seq<nat>, whole: seq<nat>, table: map<nat, nat>)
    requires NoRepeat(whole) && Lists(a, whole, table) && Lists(b, whole, table)
    ensures a == b
  {
    if whole == [] {
      assert a == [] && b == [];
    } else {
      var front, x := whole[..|whole| - 1], whole[|whole| - 1];
      assert whole == front + [x];
      var a' := ListsFront(a, front, x, table);
      var b' := ListsFront(b, front, x, table);
      ListsOnce(a', b', front, table);
    }
  }

  lemma ListsFront(a: seq<nat>, front: seq<nat>, x: nat, table: map<nat, nat>) returns (a': seq<nat>)
    requires x !in front && Lists(a, front + [x], table)
    ensures Lists(a', front, table) && a == if x in table then a' else a' + [x]
  {
    assert (front + [x])[..|front|] == front;
    if a != [] && a[|a| - 1] == x {
      a' := a[..|a| - 1];
      assert a == a' + [x];
      assert x in a;
    } else {
      a' := a;
      if x in a {
        SubsequenceHas(a, front, x);
      }
    }
    forall y: nat ensures y in a' <==> y in front && y !in table {
      assert y in a <==> y in front + [x] && y !in table;
      if y in a' {
        SubsequenceHas(a', front, y);
      }
    }
  }

  lemma {:induction false} AssociatedOnce(toLoop: map<nat, nat>, h: nat, latches: seq<nat>, a: map<nat, nat>,
                                          b: map<nat, nat>)
    requires Associated(toLoop, h, latches, a) && Associated(toLoop, h, latches, b)
    ensures a == b
  {
    assert a.Keys == b.Keys;
  }

  lemma PopulatedOnce(preds: Graph, found: Record, h: nat, t: Tables, a: Tables, b: Tables)
    requires Populated(preds, found, h, t, a) && Populated(preds, found, h, t, b)
    ensures a == b
  {
    var mid, met :| PopulatedBy(preds, found, h, t, a, mid, met);
    var mid', met' :| PopulatedBy(preds, found, h, t, b, mid', met');
    AssociatedOnce(t.toLoop, h, found.backEdgesSrc[h], mid, mid');
    if found.reducible[h] {
      OneMeetOrder(preds, h, found.backEdgesSrc[h], met, met');
    }
  }

  lemma {:induction false} StagesOnce(preds: Graph, found: Record, ts: seq<Tables>, us: seq<Tables>, k: nat)
    requires Stages(preds, found, ts) && Stages(preds, found, us) && k < |ts| && k < |us|
    ensures ts[k] == us[k]
  {
    if k > 0 {
      StagesOnce(preds, found, ts, us, k - 1);
      assert IsStage(preds, found, ts, k - 1) && IsStage(preds, found, us, k - 1);
      PopulatedOnce(preds, found, found.heads[k - 1], ts[k - 1], ts[k], us[k]);
    }
  }

  lemma RootBodyOnce(root: nat, body: map<nat, seq<Item>>, a: map<nat, seq<Item>>, b: map<nat, seq<Item>>,
                     free: seq<nat>, tops: seq<nat>)
    requires RootBody(root, body, a, free, tops) && RootBody(root, body, b, free, tops)
    ensures a == b
  {
    PartsOnce(a[root], b[root], free, tops);
    forall h | h in a ensures h in b && a[h] == b[h] {
      assert h in body.Keys + {root};
    }
    assert a.Keys == b.Keys;
  }

  lemma PartsOnce(a: seq<Item>, b: seq<Item>, free: seq<nat>, tops: seq<nat>)
    requires RootParts(a, free, tops) && RootParts(b, free, tops)
    ensures a == b
  {
    forall i | 0 <= i < |a| ensures a[i] == b[i] {
      if i >= |free| {
        var j: nat := i - |free|;
        assert a[|free| + j] == Inner(tops[j]) && b[|free| + j] == Inner(tops[j]);
      }
    }
  }

  lemma RootAddedOnce(root: nat, found: Record, t: Tables, a: Tables, b: Tables)
    requires NoRepeat(found.others) && NoRepeat(found.loops)
    requires RootAdded(root, found, t.toLoop, t.outer, t.body, a.toLoop, a.outer, a.body)
    requires RootAdded(root, found, t.toLoop, t.outer, t.body, b.toLoop, b.outer, b.body)
    ensures a == b
  {
    var free, tops :| Lists(free, found.others, t.toLoop) && Lists(tops, found.loops, t.outer)
                      && RootBody(root, t.body, a.body, free, tops);
    var free', tops' :| Lists(free', found.others, t.toLoop) && Lists(tops', found.loops, t.outer)
                        && RootBody(root, t.body, b.body, free', tops');
    ListsOnce(free, free', found.others, t.toLoop);
    ListsOnce(tops, tops', found.loops, t.outer);
    RootBodyOnce(root, t.body, a.body, b.body, free, tops);
    FreeAddedOnce(root, found.others, t.toLoop, a.toLoop, b.toLoop);
    LoopsAddedOnce(root, found.loops, t.outer, a.outer, b.outer);
  }

  lemma FreeAddedOnce(root: nat, others: seq<nat>, toLoop: map<nat, nat>, a: map<nat, nat>, b: map<nat, nat>)
    requires FreeAdded(root, others, toLoop, a) && FreeAdded(root, others, toLoop, b)
    ensures a == b
  {
    assert a.Keys == b.Keys;
  }

  lemma LoopsAddedOnce(root: nat, loops: seq<nat>, outer: map<nat, nat>, a: map<nat, nat>, b: map<nat, nat>)
    requires LoopsAdded(root, loops, outer, a) && LoopsAdded(root, loops, outer, b)
    ensures a == b
  {
    assert a.Keys == b.Keys;
  }

  /** What the visitor recorded determines the tables of the analyzer. */
  lemma AnalysisOnce(g: Graph, entry: nat, preds: Graph, s: Search, found: Record, a: Tables, b: Tables)
    requires Finished(g, entry, s) && Recorded(found, s.trace)
    requires IsAnalysis(g, preds, found, a) && IsAnalysis(g, preds, found, b)
    ensures a == b
  {
    var ts: seq<Tables> :|
      Stages(preds, found, ts) && |ts| == |found.heads| + 1 && Closed(|g|, found, ts[|found.heads|], a);
    var us: seq<Tables> :|
      Stages(preds, found, us) && |us| == |found.heads| + 1 && Closed(|g|, found, us[|found.heads|], b);
    StagesOnce(preds, found, ts, us, |found.heads|);
    ListsAreOnce(g, entry, s, found);
    if |found.others| + |found.heads| != |ts[|found.heads|].toLoop| {
      RootAddedOnce(|g|, found, ts[|found.heads|], a, b);
    }
  }

  // ----- what they hold -----

  /** After `i` loops: who has an owner is reachable and has a loop for it, a header its own; the latches of the
      loops done have owners; and an irreducible loop has nothing but its latches. */
  ghost predicate Kept(g: Graph, entry: nat, found: Record, i: nat, t: Tables)
    requires i <= |found.heads|
  {
    && OwnersKept(g, entry, found, t.toLoop)
    && (forall k :: 0 <= k < i ==> HaveOwners(found, found.heads[k], t.toLoop))
    && OuterKept(found, t.outer) && t.body.Keys == found.backEdgesSrc.Keys
    && (forall h :: h in found.reducible && h in t.body && !found.reducible[h] ==>
          t.body[h] == NodesOf(found.backEdgesSrc[h]))
  }

  ghost predicate HaveOwners(found: Record, h: nat, toLoop: map<nat, nat>) {
    h in found.backEdgesSrc && forall u :: u in found.backEdgesSrc[h] ==> u in toLoop
  }

  ghost predicate OuterKept(found: Record, outer: map<nat, nat>) {
    forall x :: x in outer ==> x in found.backEdgesSrc && outer[x] in found.backEdgesSrc
  }

  ghost predicate OwnersKept(g: Graph, entry: nat, found: Record, toLoop: map<nat, nat>) {
    && (forall n :: n in toLoop ==> Reachable(g, entry, n) && toLoop[n] in found.backEdgesSrc)
    && (forall h :: h in found.backEdgesSrc ==> h in toLoop && toLoop[h] == h)
  }

  /** Headers and latches are reachable. */
  ghost predicate AllReachable(g: Graph, entry: nat, latches: map<nat, seq<nat>>) {
    forall h :: h in latches ==> h < |g| && Reachable(g, entry, h) && LatchesReachable(g, entry, h, latches[h])
  }

  ghost predicate LatchesReachable(g: Graph, entry: nat, h: nat, srcs: seq<nat>) {
    forall u :: u in srcs ==> u < |g| && u != h && Reachable(g, entry, u)
  }

  lemma LoopsAreReachable(g: Graph, entry: nat, s: Search, found: Record)
    requires ValidGraph(g) && Finished(g, entry, s) && NoSelfEdges(g) && Recorded(found, s.trace)
    ensures AllReachable(g, entry, found.backEdgesSrc)
  {
    var latches := found.backEdgesSrc;
    forall h | h in latches
      ensures h < |g| && Reachable(g, entry, h) && LatchesReachable(g, entry, h, latches[h])
    {
      LatchIsReachable(g, entry, s, latches, h);
    }
  }

  lemma LatchIsReachable(g: Graph, entry: nat, s: Search, latches: map<nat, seq<nat>>, h: nat)
    requires ValidGraph(g) && Finished(g, entry, s) && NoSelfEdges(g) && SourcesAre(s.trace, latches) && h in latches
    ensures h < |g| && Reachable(g, entry, h) && LatchesReachable(g, entry, h, latches[h])
  {
    forall u | u in latches[h] ensures u < |g| && u != h && Reachable(g, entry, u) {
      LatchFacts(g, entry, s, h, u);
    }
    var u := latches[h][0];
    LatchFacts(g, entry, s, h, u);
    var path :| EntryPath(g, entry, path, u);
    ExtendPath(g, entry, path, u, h);
  }

  /** The blocks of a loop are reachable if its latches are. */
  lemma {:induction false} LoopPathReachable(g: Graph, entry: nat, preds: Graph, l: Loops, h: nat, path: seq<nat>)
    requires PredLists(g, preds) && MatchingPreds(g, entry, preds) && LatchPath(g, l, h, path)
    requires LatchesReachable(g, entry, h, l.latches[h])
    ensures Reachable(g, entry, path[0])
    decreases |path|
  {
    if |path| > 1 {
      PathBack(g, path, 1);
      PathEdge(g, path, 0);
      assert LatchPath(g, l, h, path[1..]);
      LoopPathReachable(g, entry, preds, l, h, path[1..]);
      var v := path[1];
      var j :| 0 <= j < |preds[v]| && preds[v][j] == path[0];
    }
  }

  lemma StartIsKept(g: Graph, entry: nat, found: Record)
    requires TablesFit(found) && AllReachable(g, entry, found.backEdgesSrc)
    ensures Kept(g, entry, found, 0, Tables(found.toLoop, map[], found.body))
  {
    assert found.body.Keys == found.backEdgesSrc.Keys;
  }

  /** The search for one loop keeps the owners and the nesting. */
  lemma MeetingKeeps(g: Graph, entry: nat, preds: Graph, found: Record, h: nat, outer: map<nat, nat>,
                     mid: map<nat, nat>, met: seq<nat>)
    requires PredLists(g, preds) && MatchingPreds(g, entry, preds) && AllReachable(g, entry, found.backEdgesSrc)
    requires h in found.backEdgesSrc && OwnersKept(g, entry, found, mid)
    requires IsMeetOrder(preds, h, found.backEdgesSrc[h], met) && OuterKept(found, outer)
    ensures var f := MeetAll(Filling(mid, outer, []), h, met);
            OwnersKept(g, entry, found, f.toLoop) && (forall n :: n in mid ==> n in f.toLoop)
              && OuterKept(found, f.outer)
  {
    var l := LoopsOf(found);
    MeetOrderIsOnce(g, preds, l, h, met);
    MeetAllIs(mid, outer, h, met);
    forall n | n in met ensures Reachable(g, entry, n) {
      var path :| LatchPath(g, l, h, path) && path[0] == n;
      LoopPathReachable(g, entry, preds, l, h, path);
    }
    var f := MeetAll(Filling(mid, outer, []), h, met);
    MetKeepsOwners(g, entry, found, h, met, outer, mid, f);
  }

  lemma MetKeepsOwners(g: Graph, entry: nat, found: Record, h: nat, met: seq<nat>, outer: map<nat, nat>,
                       mid: map<nat, nat>, f: Filling)
    requires h in found.backEdgesSrc && OwnersKept(g, entry, found, mid) && OuterKept(found, outer)
    requires Met(mid, outer, h, Elements(met), f.toLoop, f.outer, f.items)
    requires forall n :: n in met ==> Reachable(g, entry, n)
    ensures OwnersKept(g, entry, found, f.toLoop) && (forall n :: n in mid ==> n in f.toLoop)
            && OuterKept(found, f.outer)
  {
    forall x | x in f.outer ensures x in found.backEdgesSrc && f.outer[x] in found.backEdgesSrc {
      if x !in outer {
        var n :| n in Elements(met) && n in mid && mid[n] == x;
      }
    }
  }

  lemma LatchesKeep(g: Graph, entry: nat, found: Record, h: nat, toLoop: map<nat, nat>, mid: map<nat, nat>)
    requires AllReachable(g, entry, found.backEdgesSrc) && h in found.backEdgesSrc
    requires OwnersKept(g, entry, found, toLoop) && Associated(toLoop, h, found.backEdgesSrc[h], mid)
    ensures OwnersKept(g, entry, found, mid)
  {
  }

  lemma NextIsKept(g: Graph, entry: nat, preds: Graph, found: Record, i: nat, t: Tables, t': Tables)
    requires PredLists(g, preds) && MatchingPreds(g, entry, preds) && AllReachable(g, entry, found.backEdgesSrc)
    requires i < |found.heads| && Kept(g, entry, found, i, t) && Populated(preds, found, found.heads[i], t, t')
    ensures Kept(g, entry, found, i + 1, t')
  {
    var h := found.heads[i];
    var mid, met :| PopulatedBy(preds, found, h, t, t', mid, met);
    LatchesKeep(g, entry, found, h, t.toLoop, mid);
    if found.reducible[h] {
      MeetingKeeps(g, entry, preds, found, h, t.outer, mid, met);
      BodyChanges(g, entry, found, i, t, t', mid, MeetAll(Filling(mid, t.outer, []), h, met));
    } else {
      BodiesKept(g, entry, found, i, t, t', mid);
    }
  }

  lemma OwnersGrow(found: Record, i: nat, toLoop: map<nat, nat>, mid: map<nat, nat>, toLoop': map<nat, nat>)
    requires i < |found.heads| && found.heads[i] in found.backEdgesSrc
    requires forall k :: 0 <= k < i ==> HaveOwners(found, found.heads[k], toLoop)
    requires Associated(toLoop, found.heads[i], found.backEdgesSrc[found.heads[i]], mid)
    requires forall n :: n in mid ==> n in toLoop'
    ensures forall k :: 0 <= k < i + 1 ==> HaveOwners(found, found.heads[k], toLoop')
  {
    forall k | 0 <= k < i + 1 ensures HaveOwners(found, found.heads[k], toLoop') {
      assert k < i ==> HaveOwners(found, found.heads[k], toLoop);
    }
  }

  lemma BodyChanges(g: Graph, entry: nat, found: Record, i: nat, t: Tables, t': Tables, mid: map<nat, nat>, f: Filling)
    requires i < |found.heads| && Kept(g, entry, found, i, t)
    requires var h := found.heads[i];
             && h in found.backEdgesSrc && h in found.reducible && found.reducible[h]
             && Associated(t.toLoop, h, found.backEdgesSrc[h], mid)
             && Filled(f, h, t.body, t'.toLoop, t'.outer, t'.body)
    requires OwnersKept(g, entry, found, f.toLoop) && (forall n :: n in mid ==> n in f.toLoop)
             && OuterKept(found, f.outer)
    ensures Kept(g, entry, found, i + 1, t')
  {
    OwnersGrow(found, i, t.toLoop, mid, t'.toLoop);
  }

  lemma BodiesKept(g: Graph, entry: nat, found: Record, i: nat, t: Tables, t': Tables, mid: map<nat, nat>)
    requires i < |found.heads| && Kept(g, entry, found, i, t)
    requires var h := found.heads[i];
             h in found.backEdgesSrc && Associated(t.toLoop, h, found.backEdgesSrc[h], mid)
    requires t' == t.(toLoop := mid) && OwnersKept(g, entry, found, mid)
    ensures Kept(g, entry, found, i + 1, t')
  {
    OwnersGrow(found, i, t.toLoop, mid, t'.toLoop);
  }

  lemma {:induction false} StagesKeep(g: Graph, entry: nat, preds: Graph, found: Record, ts: seq<Tables>, i: nat)
    requires PredLists(g, preds) && MatchingPreds(g, entry, preds) && AllReachable(g, entry, found.backEdgesSrc)
    requires TablesFit(found) && Stages(preds, found, ts) && i < |ts|
    ensures i <= |found.heads| && Kept(g, entry, found, i, ts[i])
  {
    if i == 0 {
      StartIsKept(g, entry, found);
    } else {
      StagesKeep(g, entry, preds, found, ts, i - 1);
      StageAt(preds, found, ts, i - 1);
      NextIsKept(g, entry, preds, found, i - 1, ts[i - 1], ts[i]);
    }
  }

  lemma StageAt(preds: Graph, found: Record, ts: seq<Tables>, k: nat)
    requires Stages(preds, found, ts) && k + 1 < |ts|
    ensures k < |found.heads| && Populated(preds, found, found.heads[k], ts[k], ts[k + 1])
  {
    assert IsStage(preds, found, ts, k);
  }

  /** The tables before the root loop is added. */
  lemma LastIsKept(g: Graph, entry: nat, preds: Graph, found: Record, t: Tables) returns (before: Tables)
    requires PredLists(g, preds) && MatchingPreds(g, entry, preds) && AllReachable(g, entry, found.backEdgesSrc)
    requires TablesFit(found) && IsAnalysis(g, preds, found, t)
    ensures Kept(g, entry, found, |found.heads|, before) && Closed(|g|, found, before, t)
  {
    var ts: seq<Tables> :|
      Stages(preds, found, ts) && |ts| == |found.heads| + 1 && Closed(|g|, found, ts[|found.heads|], t);
    StagesKeep(g, entry, preds, found, ts, |found.heads|);
    before := ts[|found.heads|];
  }

  /** In any graph exactly the reachable blocks have owners, a header its own loop and a latch some loop; the
      outer loop of a loop is a loop or the root. */
  ghost predicate InAnyGraph(g: Graph, entry: nat, found: Record, t: Tables) {
    && (forall n: nat :: n in t.toLoop <==> Reachable(g, entry, n))
    && (forall n :: n in t.toLoop ==> t.toLoop[n] in found.backEdgesSrc || (t.toLoop[n] == |g| && |g| in t.body))
    && (forall h :: h in found.backEdgesSrc ==> h in t.toLoop && t.toLoop[h] == h)
    && (forall x :: x in t.outer ==> x in found.backEdgesSrc)
    && (forall x :: x in t.outer ==> t.outer[x] in found.backEdgesSrc || (t.outer[x] == |g| && |g| in t.body))
  }

  lemma AnalysisCovers(g: Graph, entry: nat, preds: Graph, s: Search, found: Record, t: Tables)
    requires PredLists(g, preds) && MatchingPreds(g, entry, preds)
    requires ValidGraph(g) && Finished(g, entry, s) && NoSelfEdges(g) && Recorded(found, s.trace)
    requires IsAnalysis(g, preds, found, t)
    ensures InAnyGraph(g, entry, found, t)
  {
    LoopsAreReachable(g, entry, s, found);
    var before := LastIsKept(g, entry, preds, found, t);
    TablesCover(g, entry, s, found, before, t);
  }

  lemma TablesCover(g: Graph, entry: nat, s: Search, found: Record, before: Tables, t: Tables)
    requires Finished(g, entry, s) && Recorded(found, s.trace)
    requires Kept(g, entry, found, |found.heads|, before) && Closed(|g|, found, before, t)
    ensures InAnyGraph(g, entry, found, t)
  {
    LoopsAreListed(g, entry, s, found);
    if |found.others| + |found.heads| == |before.toLoop| {
      EnoughOwned(g, entry, s, found, before.toLoop);
    } else {
      RestIsCovered(g, entry, s, found, before, t);
    }
  }

  lemma LoopsAreListed(g: Graph, entry: nat, s: Search, found: Record)
    requires Finished(g, entry, s) && Recorded(found, s.trace)
    ensures forall x: nat :: x in found.loops <==> x in found.backEdgesSrc
    ensures forall x: nat :: x in found.heads <==> x in found.backEdgesSrc
    ensures forall n: nat :: Reachable(g, entry, n) <==> n in found.heads || n in found.others
  {
    forall x: nat
      ensures (x in found.loops <==> x in found.backEdgesSrc) && (x in found.heads <==> x in found.backEdgesSrc)
      ensures Reachable(g, entry, x) <==> x in found.heads || x in found.others
    {
      FoundIff(s.trace, x);
      HeadsAreExact(g, entry, s, x);
      ReachableIsListed(g, entry, s, x);
    }
  }

  lemma EnoughOwned(g: Graph, entry: nat, s: Search, found: Record, toLoop: map<nat, nat>)
    requires Finished(g, entry, s) && Recorded(found, s.trace) && OwnersKept(g, entry, found, toLoop)
    requires |found.others| + |found.heads| == |toLoop|
    ensures forall n: nat :: n in toLoop <==> Reachable(g, entry, n)
  {
    ReachableIsListed(g, entry, s, entry);
    DistinctSize(s.post);
    forall n | n in toLoop.Keys ensures n in Elements(s.post) {
      ReachableIsListed(g, entry, s, n);
    }
    SubsetSize(toLoop.Keys, Elements(s.post));
    forall n: nat ensures n in toLoop <==> Reachable(g, entry, n) {
      ReachableIsListed(g, entry, s, n);
      assert n in toLoop.Keys <==> n in Elements(s.post);
    }
  }

  lemma RestIsCovered(g: Graph, entry: nat, s: Search, found: Record, t: Tables, t': Tables)
    requires Kept(g, entry, found, |found.heads|, t)
    requires forall x: nat :: x in found.loops <==> x in found.backEdgesSrc
    requires forall x: nat :: x in found.heads <==> x in found.backEdgesSrc
    requires forall n: nat :: Reachable(g, entry, n) <==> n in found.heads || n in found.others
    requires RootAdded(|g|, found, t.toLoop, t.outer, t.body, t'.toLoop, t'.outer, t'.body)
    ensures InAnyGraph(g, entry, found, t')
  {
  }

  /** A latch belongs to a loop other than the root, and the body of an irreducible loop is its latches. */
  lemma IrreducibleHasLatches(g: Graph, entry: nat, preds: Graph, s: Search, found: Record, t: Tables, h: nat)
    requires PredLists(g, preds) && MatchingPreds(g, entry, preds)
    requires ValidGraph(g) && Finished(g, entry, s) && NoSelfEdges(g) && Recorded(found, s.trace)
    requires IsAnalysis(g, preds, found, t) && h in found.backEdgesSrc
    ensures forall u :: u in found.backEdgesSrc[h] ==> u in t.toLoop && t.toLoop[u] in found.backEdgesSrc
    ensures h in t.body && h in found.reducible
    ensures !found.reducible[h] ==> t.body[h] == NodesOf(found.backEdgesSrc[h])
  {
    LoopsAreReachable(g, entry, s, found);
    LoopsAreListed(g, entry, s, found);
    var before := LastIsKept(g, entry, preds, found, t);
    LastStage(g, entry, found, before, t, h);
  }

  lemma LastStage(g: Graph, entry: nat, found: Record, t: Tables, t': Tables, h: nat)
    requires Kept(g, entry, found, |found.heads|, t) && Closed(|g|, found, t, t')
    requires h in found.heads && h in found.backEdgesSrc && h in found.reducible && h < |g|
    ensures forall u :: u in found.backEdgesSrc[h] ==> u in t'.toLoop && t'.toLoop[u] in found.backEdgesSrc
    ensures h in t'.body
    ensures !found.reducible[h] ==> t'.body[h] == NodesOf(found.backEdgesSrc[h])
  {
    var k :| 0 <= k < |found.heads| && found.heads[k] == h;
    assert HaveOwners(found, found.heads[k], t.toLoop);
  }
}
