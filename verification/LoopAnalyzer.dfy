/** The loop analyzer: back edges, natural loops, their owners and nesting. */
module LoopAnalyzers {
  // It collects back edges during a depth-first search and fills every loop by a search backwards from its
  // latches, inner loops first.

  import opened Wrappers
  import opened FiniteSets
  import opened Graphs
  import opened DfsState
  import opened Dfs
  import opened DomSpec
  import opened DomTrees
  import opened Dominators
  import opened LoopSpec
  import opened LoopTrace
  import opened LoopFilling
  import opened LoopOwnership
  import opened LoopSearches

  /** Blocks as parts of a body. */
  function NodesOf(srcs: seq<nat>): seq<Item> {
    if srcs == [] then [] else NodesOf(srcs[..|srcs| - 1]) + [Node(srcs[|srcs| - 1])]
  }

  /** What the visitor of the search records: the loops found so far by their headers, whether the first back
      edge says they are reducible, the headers and the other blocks as they are finished, and the loops in the
      order in which they were found. */
  datatype Record = Record(backEdgesSrc: map<nat, seq<nat>>, reducible: map<nat, bool>, toLoop: map<nat, nat>,
                           body: map<nat, seq<Item>>, heads: seq<nat>, others: seq<nat>, loops: seq<nat>)

  ghost predicate Recorded(r: Record, trace: seq<Event>) {
    && SourcesAre(trace, r.backEdgesSrc) && TablesFit(r)
    && r.heads == HeadOrder(trace) && r.others == OtherOrder(trace) && r.loops == FoundOrder(trace)
  }

  /** The tables have the same headers. */
  ghost predicate TablesFit(r: Record) {
    && (forall t :: t in r.backEdgesSrc ==> r.backEdgesSrc[t] != [] && t in r.reducible && t in r.toLoop && t in r.body)
    && (forall t :: t in r.reducible || t in r.toLoop || t in r.body ==> t in r.backEdgesSrc)
    && (forall t :: t in r.toLoop ==> r.toLoop[t] == t)
    && (forall t :: t in r.backEdgesSrc ==> r.body[t] == NodesOf(r.backEdgesSrc[t]))
  }

  function RecordBackEdge(r: Record, src: nat, tar: nat, isReducible: bool): Record
    requires tar in r.backEdgesSrc ==> tar in r.body
  {
    if tar in r.backEdgesSrc then
      r.(backEdgesSrc := r.backEdgesSrc[tar := r.backEdgesSrc[tar] + [src]],
        body := r.body[tar := r.body[tar] + [Node(src)]])
    else
      r.(backEdgesSrc := r.backEdgesSrc[tar := [src]], body := r.body[tar := [Node(src)]],
         reducible := r.reducible[tar := isReducible], toLoop := r.toLoop[tar := tar], loops := r.loops + [tar])
  }

  function RecordFinish(r: Record, node: nat): Record {
    if node in r.backEdgesSrc then r.(heads := r.heads + [node]) else r.(others := r.others + [node])
  }

  lemma NodesOfOneMore(srcs: seq<nat>, src: nat)
    ensures NodesOf(srcs + [src]) == NodesOf(srcs) + [Node(src)]
  {
    assert (srcs + [src])[..|srcs|] == srcs;
  }

  lemma BackEdgeTables(r: Record, src: nat, tar: nat, isReducible: bool)
    requires TablesFit(r)
    ensures TablesFit(RecordBackEdge(r, src, tar, isReducible))
  {
    if tar in r.backEdgesSrc {
      NodesOfOneMore(r.backEdgesSrc[tar], src);
    } else {
      NodesOfOneMore([], src);
      assert [] + [src] == [src] && [] + [Node(src)] == [Node(src)];
    }
  }

  lemma BackEdgeSources(trace: seq<Event>, src: nat, j: nat, tar: nat, t: nat)
    ensures Sources(trace + [BackEdge(src, j, tar)], t)
         == if t == tar then Sources(trace, t) + [src] else Sources(trace, t)
    ensures HeadOrder(trace + [BackEdge(src, j, tar)]) == HeadOrder(trace)
    ensures OtherOrder(trace + [BackEdge(src, j, tar)]) == OtherOrder(trace)
    ensures FoundOrder(trace + [BackEdge(src, j, tar)])
         == if Sources(trace, tar) == [] then FoundOrder(trace) + [tar] else FoundOrder(trace)
  {
    assert (trace + [BackEdge(src, j, tar)])[..|trace|] == trace;
  }

  lemma BackEdgeRecorded(r: Record, trace: seq<Event>, src: nat, j: nat, tar: nat, isReducible: bool)
    requires Recorded(r, trace)
    ensures Recorded(RecordBackEdge(r, src, tar, isReducible), trace + [BackEdge(src, j, tar)])
  {
    var trace' := trace + [BackEdge(src, j, tar)];
    BackEdgeTables(r, src, tar, isReducible);
    BackEdgeSources(trace, src, j, tar, tar);
    var latches := RecordBackEdge(r, src, tar, isReducible).backEdgesSrc;
    forall t: nat
      ensures (t in latches <==> Sources(trace', t) != []) && (t in latches ==> latches[t] == Sources(trace', t))
    {
      BackEdgeSources(trace, src, j, tar, t);
    }
  }

  lemma FinishLists(trace: seq<Event>, node: nat)
    ensures var trace', isHead := trace + [Finish(node)], Sources(trace, node) != [];
            && HeadOrder(trace') == (if isHead then HeadOrder(trace) + [node] else HeadOrder(trace))
            && OtherOrder(trace') == (if isHead then OtherOrder(trace) else OtherOrder(trace) + [node])
            && FoundOrder(trace') == FoundOrder(trace)
  {
    assert (trace + [Finish(node)])[..|trace|] == trace;
  }

  lemma FinishRecorded(r: Record, trace: seq<Event>, node: nat)
    requires Recorded(r, trace)
    ensures Recorded(RecordFinish(r, node), trace + [Finish(node)])
  {
    FinishLists(trace, node);
    SourcesStay(trace, Finish(node), r.backEdgesSrc);
    assert node in r.backEdgesSrc <==> Sources(trace, node) != [];
  }

  lemma DiscoverLists(trace: seq<Event>, node: nat)
    ensures var trace' := trace + [Discover(node)];
            HeadOrder(trace') == HeadOrder(trace) && OtherOrder(trace') == OtherOrder(trace)
            && FoundOrder(trace') == FoundOrder(trace)
  {
    assert (trace + [Discover(node)])[..|trace|] == trace;
  }

  lemma DiscoverRecorded(r: Record, trace: seq<Event>, node: nat)
    requires Recorded(r, trace)
    ensures Recorded(r, trace + [Discover(node)])
  {
    DiscoverLists(trace, node);
    SourcesStay(trace, Discover(node), r.backEdgesSrc);
  }

  lemma SourcesStay(trace: seq<Event>, e: Event, latches: map<nat, seq<nat>>)
    requires SourcesAre(trace, latches) && !e.BackEdge?
    ensures SourcesAre(trace + [e], latches)
  {
    var trace' := trace + [e];
    assert trace'[..|trace|] == trace;
    forall t: nat
      ensures (t in latches <==> Sources(trace', t) != []) && (t in latches ==> latches[t] == Sources(trace', t))
    {
      assert Sources(trace', t) == Sources(trace, t);
    }
  }

  /** The flags are the answers of the dominator tree on the first back edges. */
  ghost predicate FlagsAre(r: Record, preds: seq<seq<nat>>, times: map<nat, nat>)
    requires TreeFits(preds, times)
  {
    forall t :: t in r.reducible && t in r.backEdgesSrc && r.backEdgesSrc[t] != [] ==>
      (r.reducible[t] <==> BlockAbove(preds, times, t, r.backEdgesSrc[t][0]))
  }

  lemma BackEdgeFlags(r: Record, preds: seq<seq<nat>>, times: map<nat, nat>, src: nat, tar: nat, isReducible: bool)
    requires TreeFits(preds, times) && TablesFit(r) && FlagsAre(r, preds, times)
    requires isReducible <==> BlockAbove(preds, times, tar, src)
    ensures FlagsAre(RecordBackEdge(r, src, tar, isReducible), preds, times)
  {
  }

  method RecordEvent(r: Record, e: Event, tree: map<nat, seq<nat>>, times: map<nat, nat>, ghost preds: seq<seq<nat>>,
                     ghost trace: seq<Event>)
    returns (r': Record)
    requires TreeFits(preds, times) && IsTree(preds, tree) && (e.BackEdge? ==> e.src in times && e.tar in times)
    requires Recorded(r, trace) && FlagsAre(r, preds, times)
    ensures Recorded(r', trace + [e]) && FlagsAre(r', preds, times)
  {
    match e
    case Discover(node) =>
      DiscoverRecorded(r, trace, node);
      r' := r;
    case Finish(node) =>
      FinishRecorded(r, trace, node);
      r' := RecordFinish(r, node);
    case BackEdge(src, j, tar) =>
      var isReducible := Dominators.IsDominator(tree, times[tar], times[src], preds);
      BackEdgeRecorded(r, trace, src, j, tar, isReducible);
      BackEdgeFlags(r, preds, times, src, tar, isReducible);
      r' := RecordBackEdge(r, src, tar, isReducible);
  }

  /** The visitor on all events of the search. */
  method CollectBackEdges(trace: seq<Event>, tree: map<nat, seq<nat>>, times: map<nat, nat>, ghost preds: seq<seq<nat>>)
    returns (r: Record)
    requires TreeFits(preds, times) && IsTree(preds, tree)
    requires forall e :: e in trace && e.BackEdge? ==> e.src in times && e.tar in times
    ensures Recorded(r, trace) && FlagsAre(r, preds, times)
  {
    r := Record(map[], map[], map[], map[], [], [], []);
    for i := 0 to |trace|
      invariant Recorded(r, trace[..i]) && FlagsAre(r, preds, times)
    {
      assert trace[i] in trace && trace[..i + 1] == trace[..i] + [trace[i]];
      r := RecordEvent(r, trace[i], tree, times, preds, trace[..i]);
    }
    assert trace[..|trace|] == trace;
  }

  /** Dominator tree, depth-first search and its visitor. */
  method CollectLoops(g: Graph, entry: nat, preds: Graph) returns (r: Record, ghost s: Search)
    requires PredLists(g, preds) && entry < |g| && MatchingPreds(g, entry, preds) && NoSelfEdges(g)
    ensures Finished(g, entry, s) && Recorded(r, s.trace)
    ensures Shape(g, r)
    ensures IsFlagged(g, entry, preds, r)
  {
    var order, times, builder := BuildDomTree(g, entry, preds);
    var trace;
    trace, s := DepthFirstSearch(g, Some(entry));
    TimesFit(g, entry, order, times, builder.preds);
    EventsTimed(g, entry, s, times);
    r := CollectBackEdges(trace, builder.tree, times, builder.preds);
    RecordFacts(g, entry, s, r);
    assert Flagged(g, entry, preds, r, order, times, builder.preds);
  }

  /** The loops are flagged by the dominator tree of the graph. */
  ghost predicate Flagged(g: Graph, entry: nat, preds: Graph, r: Record, order: seq<nat>, times: map<nat, nat>,
                          tpreds: seq<seq<nat>>)
  {
    && IsTimes(g, entry, order, times) && Renames(g, entry, preds, order, tpreds)
    && TreeFits(tpreds, times) && FlagsAre(r, tpreds, times)
  }

  ghost predicate IsFlagged(g: Graph, entry: nat, preds: Graph, r: Record) {
    exists order, times, tpreds :: Flagged(g, entry, preds, r, order, times, tpreds)
  }

  // ----- what the filling keeps -----

  function LoopsOf(found: Record): Loops {
    Loops(found.heads, found.backEdgesSrc)
  }

  /** Every loop is reducible and flagged so, and no inner one consists of latches of the outer one only. */
  ghost predicate Regular(g: Graph, entry: nat, found: Record) {
    && Natural(g, entry, LoopsOf(found)) && LoopsAreMet(g, LoopsOf(found))
    && forall h :: h in found.backEdgesSrc ==> h in found.reducible && found.reducible[h]
  }

  ghost predicate Shape(g: Graph, found: Record) {
    match found
    case Record(latches, _, _, _, heads, _, _) =>
      && TablesFit(found) && (forall h :: h in heads ==> h in latches)
      && (forall h, u :: h in latches && u in latches[h] ==> u < |g| && u != h)
      && (forall h :: h in latches ==> h < |g|)
  }

  /** The body of a loop: its latches in the order of the back edges; once it is filled, its other blocks and the
      loops right inside behind them, in the order in which the search meets them. */
  ghost predicate BodyIn(g: Graph, preds: Graph, found: Record, body: map<nat, seq<Item>>, h: nat, filled: bool) {
    h in body && h in found.backEdgesSrc &&
    if filled then
      exists met :: IsMeetOrder(preds, h, found.backEdgesSrc[h], met)
                    && IsBodyOf(g, LoopsOf(found), h, body[h], met)
    else body[h] == NodesOf(found.backEdgesSrc[h])
  }

  ghost predicate IsBodyOf(g: Graph, l: Loops, h: nat, parts: seq<Item>, met: seq<nat>) {
    && h in l.latches && parts == NodesOf(l.latches[h]) + PartsMet(g, l, h, met)
    && BodyOk(g, l, h, PartsMet(g, l, h, met))
  }

  /** The first `i` bodies are filled. */
  ghost predicate Bodies(g: Graph, preds: Graph, found: Record, i: nat, body: map<nat, seq<Item>>) {
    forall k :: 0 <= k < |found.heads| ==> BodyIn(g, preds, found, body, found.heads[k], k < i)
  }

  /** In a regular graph the first `i` loops have been filled as specified. */
  ghost predicate Progress(g: Graph, entry: nat, preds: Graph, found: Record, i: nat, toLoop: map<nat, nat>,
                           outer: map<nat, nat>, body: map<nat, seq<Item>>)
    requires i <= |found.heads|
  {
    !(Regular(g, entry, found) && MatchingPreds(g, entry, preds))
    || (OwnersAt(g, LoopsOf(found), i, toLoop) && OuterAt(g, LoopsOf(found), i, outer)
       && Bodies(g, preds, found, i, body))
  }

  lemma ProgressAtStart(g: Graph, entry: nat, preds: Graph, found: Record)
    requires Shape(g, found)
    ensures Progress(g, entry, preds, found, 0, found.toLoop, map[], found.body)
  {
    forall k | 0 <= k < |found.heads| ensures BodyIn(g, preds, found, found.body, found.heads[k], false) {
      assert found.heads[k] in found.heads;
    }
  }

  /** The tables once the loop of `h` has been filled. */
  ghost predicate Filled(f: Filling, h: nat, base: map<nat, seq<Item>>, toLoop: map<nat, nat>, outer: map<nat, nat>,
                         body: map<nat, seq<Item>>)
  {
    h in base && body == base[h := base[h] + f.items] && toLoop == f.toLoop && outer == f.outer
  }

  /** The tables of the analyzer. */
  datatype Tables = Tables(toLoop: map<nat, nat>, outer: map<nat, nat>, body: map<nat, seq<Item>>)

  /** One loop is populated: its latches without an owner belong to it; if it is reducible it meets its blocks,
      and if not that is all. */
  ghost predicate Populated(preds: Graph, found: Record, h: nat, t: Tables, t': Tables) {
    exists mid, met :: PopulatedBy(preds, found, h, t, t', mid, met)
  }

  ghost predicate PopulatedBy(preds: Graph, found: Record, h: nat, t: Tables, t': Tables, mid: map<nat, nat>,
                              met: seq<nat>)
  {
    && h in found.backEdgesSrc && h in found.reducible && Associated(t.toLoop, h, found.backEdgesSrc[h], mid)
    && if found.reducible[h] then
         && IsMeetOrder(preds, h, found.backEdgesSrc[h], met)
         && Filled(MeetAll(Filling(mid, t.outer, []), h, met), h, t.body, t'.toLoop, t'.outer, t'.body)
       else t' == t.(toLoop := mid)
  }

  /** The tables while one loop after the other is populated, in any graph. */
  ghost predicate Stages(preds: Graph, found: Record, ts: seq<Tables>) {
    && 1 <= |ts| <= |found.heads| + 1 && ts[0] == Tables(found.toLoop, map[], found.body)
    && forall k :: 0 <= k < |ts| - 1 ==> IsStage(preds, found, ts, k)
  }

  ghost predicate IsStage(preds: Graph, found: Record, ts: seq<Tables>, k: nat)
    requires k < |found.heads| && k + 1 < |ts|
  {
    Populated(preds, found, found.heads[k], ts[k], ts[k + 1])
  }

  lemma NextStage(preds: Graph, found: Record, ts: seq<Tables>, t: Tables)
    requires Stages(preds, found, ts) && |ts| <= |found.heads|
    requires Populated(preds, found, found.heads[|ts| - 1], ts[|ts| - 1], t)
    ensures Stages(preds, found, ts + [t])
  {
    forall k | 0 <= k < |ts| ensures IsStage(preds, found, ts + [t], k) {
      if k < |ts| - 1 {
        assert IsStage(preds, found, ts, k);
      }
    }
  }

  /** The tables in the end: with fewer owned blocks than visited ones a root loop is added. */
  ghost predicate Closed(root: nat, found: Record, t: Tables, t': Tables) {
    if |found.others| + |found.heads| == |t.toLoop| then t' == t
    else RootAdded(root, found, t.toLoop, t.outer, t.body, t'.toLoop, t'.outer, t'.body)
  }

  ghost predicate IsAnalysis(g: Graph, preds: Graph, found: Record, t: Tables) {
    exists ts :: Stages(preds, found, ts) && |ts| == |found.heads| + 1 && Closed(|g|, found, ts[|found.heads|], t)
  }

  lemma NextProgress(g: Graph, entry: nat, preds: Graph, found: Record, i: nat,
                     toLoop: map<nat, nat>, outer: map<nat, nat>, body: map<nat, seq<Item>>,
                     mid: map<nat, nat>, met: seq<nat>,
                     toLoop': map<nat, nat>, outer': map<nat, nat>, body': map<nat, seq<Item>>)
    requires PredLists(g, preds) && MatchingPreds(g, entry, preds) && Regular(g, entry, found) && i < |found.heads|
    requires Progress(g, entry, preds, found, i, toLoop, outer, body)
    requires var h := found.heads[i];
             && h in found.backEdgesSrc && Associated(toLoop, h, found.backEdgesSrc[h], mid)
             && IsMeetOrder(preds, h, found.backEdgesSrc[h], met) && OncePerNode(g, LoopsOf(found), h, met)
             && Filled(MeetAll(Filling(mid, outer, []), h, met), h, body, toLoop', outer', body')
    ensures Progress(g, entry, preds, found, i + 1, toLoop', outer', body')
  {
    var h := found.heads[i];
    NextFilling(g, entry, preds, LoopsOf(found), i, toLoop, outer, mid, met);
    NextBodies(g, entry, preds, found, i, body, met);
  }

  lemma NextBodies(g: Graph, entry: nat, preds: Graph, found: Record, i: nat, body: map<nat, seq<Item>>, met: seq<nat>)
    requires Natural(g, entry, LoopsOf(found)) && i < |found.heads| && Bodies(g, preds, found, i, body)
    requires found.heads[i] in body && found.heads[i] in found.backEdgesSrc
    requires IsMeetOrder(preds, found.heads[i], found.backEdgesSrc[found.heads[i]], met)
    requires BodyOk(g, LoopsOf(found), found.heads[i], PartsMet(g, LoopsOf(found), found.heads[i], met))
    ensures var h := found.heads[i];
            Bodies(g, preds, found, i + 1, body[h := body[h] + PartsMet(g, LoopsOf(found), h, met)])
  {
    var h := found.heads[i];
    var body' := body[h := body[h] + PartsMet(g, LoopsOf(found), h, met)];
    assert BodyIn(g, preds, found, body, h, i < i);
    forall k | 0 <= k < |found.heads| ensures BodyIn(g, preds, found, body', found.heads[k], k < i + 1) {
      assert BodyIn(g, preds, found, body, found.heads[k], k < i);
      if k != i {
        HeadsDiffer(g, entry, LoopsOf(found), i, k);
      } else {
        assert IsBodyOf(g, LoopsOf(found), h, body'[h], met);
      }
    }
  }

  /** The owner of a block in the end; `root` is the key of the root loop. */
  ghost function OwnerOf(g: Graph, l: Loops, root: nat, n: nat): nat {
    match Owner(g, l, n)
    case Some(h) => h
    case None => root
  }

  /** Every reachable block has exactly one owner: a header its own loop, another block the innermost loop it
      lies in, the root loop what is left. Every loop has the innermost other loop with its header as outer
      loop. */
  ghost predicate Owned(g: Graph, entry: nat, l: Loops, toLoop: map<nat, nat>, outer: map<nat, nat>) {
    && (forall n :: Reachable(g, entry, n) ==> n in toLoop && toLoop[n] == OwnerOf(g, l, |g|, n))
    && (forall x, h :: x in l.latches && FirstLoop(g, l, |l.heads|, x) == Some(h) ==> x in outer && outer[x] == h)
  }

  lemma OwnedFrom(g: Graph, entry: nat, l: Loops, toLoop: map<nat, nat>, outer: map<nat, nat>)
    requires OwnersAt(g, l, |l.heads|, toLoop) && OuterAt(g, l, |l.heads|, outer)
    requires forall n :: Reachable(g, entry, n) ==> n in toLoop
    ensures Owned(g, entry, l, toLoop, outer)
  {
  }

  lemma RestIsOwned(g: Graph, entry: nat, s: Search, l: Loops, others: seq<nat>, before: map<nat, nat>,
                    toLoop: map<nat, nat>, outer: map<nat, nat>)
    requires Finished(g, entry, s) && l.heads == HeadOrder(s.trace) && others == OtherOrder(s.trace)
    requires forall h :: h in l.heads ==> h in l.latches
    requires OwnersAt(g, l, |l.heads|, before) && OuterAt(g, l, |l.heads|, outer)
    requires forall n :: n in toLoop <==> n in before || n in others
    requires forall n :: n in toLoop ==> toLoop[n] == if n in before then before[n] else |g|
    ensures Owned(g, entry, l, toLoop, outer)
  {
    forall n: nat | Reachable(g, entry, n) ensures n in toLoop {
      ReachableIsListed(g, entry, s, n);
    }
  }

  // ----- the root loop -----

  /** `part` is `whole` without what `table` has. */
  ghost predicate Lists(part: seq<nat>, whole: seq<nat>, table: map<nat, nat>) {
    Subsequence(part, whole) && NoRepeat(part) && forall x: nat :: x in part <==> x in whole && x !in table
  }

  lemma ListsNext(part: seq<nat>, whole: seq<nat>, table: map<nat, nat>, x: nat)
    requires Lists(part, whole, table) && x !in whole
    ensures Lists(if x in table then part else part + [x], whole + [x], table)
  {
    assert (whole + [x])[..|whole|] == whole && (part + [x])[..|part|] == part;
    if x in table {
      SubsequenceSkips(part, whole, x);
    }
  }

  /** The body of the root loop: these blocks, then these loops. */
  ghost predicate RootParts(parts: seq<Item>, free: seq<nat>, tops: seq<nat>) {
    && |parts| == |free| + |tops|
    && (forall i :: 0 <= i < |free| ==> parts[i] == Node(free[i]))
    && (forall i :: 0 <= i < |tops| ==> parts[|free| + i] == Inner(tops[i]))
  }

  /** The blocks without a loop enter the root loop. */
  ghost predicate FreeAdded(root: nat, others: seq<nat>, toLoop: map<nat, nat>, toLoop': map<nat, nat>) {
    && (forall n :: n in toLoop' <==> n in toLoop || n in others)
    && (forall n :: n in toLoop' ==> toLoop'[n] == if n in toLoop then toLoop[n] else root)
  }

  /** The loops without an outer one get the root loop for it. */
  ghost predicate LoopsAdded(root: nat, loops: seq<nat>, outer: map<nat, nat>, outer': map<nat, nat>) {
    && (forall x :: x in outer' <==> x in outer || x in loops)
    && (forall x :: x in outer' ==> outer'[x] == if x in outer then outer[x] else root)
  }

  /** Besides the body of the root loop no body changes. */
  ghost predicate RootBody(root: nat, body: map<nat, seq<Item>>, body': map<nat, seq<Item>>, free: seq<nat>,
                           tops: seq<nat>)
  {
    root in body' && body'.Keys == body.Keys + {root} && RootParts(body'[root], free, tops)
    && forall h :: h in body && h != root ==> body'[h] == body[h]
  }

  lemma FreeAddedNext(root: nat, others: seq<nat>, toLoop: map<nat, nat>, toLoop': map<nat, nat>, n: nat)
    requires FreeAdded(root, others, toLoop, toLoop')
    ensures FreeAdded(root, others + [n], toLoop, if n in toLoop' then toLoop' else toLoop'[n := root])
  {
  }

  lemma LoopsAddedNext(root: nat, loops: seq<nat>, outer: map<nat, nat>, outer': map<nat, nat>, x: nat)
    requires LoopsAdded(root, loops, outer, outer')
    ensures LoopsAdded(root, loops + [x], outer, if x in outer' then outer' else outer'[x := root])
  {
  }

  lemma RootBodyNext(root: nat, body: map<nat, seq<Item>>, body': map<nat, seq<Item>>, free: seq<nat>,
                     tops: seq<nat>, n: nat)
    requires RootBody(root, body, body', free, tops)
    ensures tops == [] ==> RootBody(root, body, body'[root := body'[root] + [Node(n)]], free + [n], [])
    ensures RootBody(root, body, body'[root := body'[root] + [Inner(n)]], free, tops + [n])
  {
  }

  /** The blocks of `others` have been looked at; `free` are those without a loop. */
  ghost predicate FreePart(root: nat, others: seq<nat>, toLoop: map<nat, nat>, body: map<nat, seq<Item>>,
                           toLoop': map<nat, nat>, body': map<nat, seq<Item>>, free: seq<nat>)
  {
    FreeAdded(root, others, toLoop, toLoop') && Lists(free, others, toLoop) && RootBody(root, body, body', free, [])
  }

  lemma NextFree(root: nat, others: seq<nat>, toLoop: map<nat, nat>, body: map<nat, seq<Item>>,
                 toLoop': map<nat, nat>, body': map<nat, seq<Item>>, free: seq<nat>, n: nat)
    requires FreePart(root, others, toLoop, body, toLoop', body', free) && n !in others
    ensures if n in toLoop' then FreePart(root, others + [n], toLoop, body, toLoop', body', free)
            else FreePart(root, others + [n], toLoop, body, toLoop'[n := root],
                          body'[root := body'[root] + [Node(n)]], free + [n])
  {
    ListsNext(free, others, toLoop, n);
    FreeAddedNext(root, others, toLoop, toLoop', n);
    RootBodyNext(root, body, body', free, [], n);
  }

  /** The same for the loops without an outer one. */
  ghost predicate TopPart(root: nat, loops: seq<nat>, outer: map<nat, nat>, body: map<nat, seq<Item>>,
                          outer': map<nat, nat>, body': map<nat, seq<Item>>, free: seq<nat>, tops: seq<nat>)
  {
    LoopsAdded(root, loops, outer, outer') && Lists(tops, loops, outer) && RootBody(root, body, body', free, tops)
  }

  lemma NextTop(root: nat, loops: seq<nat>, outer: map<nat, nat>, body: map<nat, seq<Item>>,
                outer': map<nat, nat>, body': map<nat, seq<Item>>, free: seq<nat>, tops: seq<nat>, x: nat)
    requires TopPart(root, loops, outer, body, outer', body', free, tops) && x !in loops
    ensures if x in outer' then TopPart(root, loops + [x], outer, body, outer', body', free, tops)
            else TopPart(root, loops + [x], outer, body, outer'[x := root],
                         body'[root := body'[root] + [Inner(x)]], free, tops + [x])
  {
    ListsNext(tops, loops, outer, x);
    LoopsAddedNext(root, loops, outer, outer', x);
    RootBodyNext(root, body, body', free, tops, x);
  }

  /** What the root loop adds: the blocks in no loop are its own, in finish order, and behind them it lists the
      loops in no loop, as they were found. */
  ghost predicate RootAdded(root: nat, found: Record, toLoop: map<nat, nat>, outer: map<nat, nat>,
                            body: map<nat, seq<Item>>, toLoop': map<nat, nat>, outer': map<nat, nat>,
                            body': map<nat, seq<Item>>)
  {
    && FreeAdded(root, found.others, toLoop, toLoop') && LoopsAdded(root, found.loops, outer, outer')
    && exists free, tops :: Lists(free, found.others, toLoop) && Lists(tops, found.loops, outer)
                            && RootBody(root, body, body', free, tops)
  }

  /** The root loop in a regular graph: there is one exactly if some reachable block lies in no loop. Its body is
      these blocks in finish order and then the loops in no other loop as they were found, and exactly these
      loops have it for their outer loop. */
  ghost predicate Rooted(g: Graph, entry: nat, found: Record, outer: map<nat, nat>, body: map<nat, seq<Item>>) {
    && (|g| in body <==> exists n :: IsFree(g, entry, LoopsOf(found), n))
    && TopsAreIn(g, LoopsOf(found), outer, |g| in body)
    && (|g| in body ==> exists free, tops :: IsRootBody(g, entry, found, body[|g|], free, tops))
  }

  /** With a root loop exactly the loops in no other one have it for their outer loop, without one they have
      none; every other loop has a loop for its outer loop. */
  ghost predicate TopsAreIn(g: Graph, l: Loops, outer: map<nat, nat>, rooted: bool) {
    && (forall x :: x in outer <==> x in l.latches && (IsTop(g, l, x) ==> rooted))
    && (forall x :: x in outer ==> if IsTop(g, l, x) then outer[x] == |g| else outer[x] in l.latches)
  }

  ghost predicate InSome(g: Graph, l: Loops, n: nat) {
    exists h :: InLoop(g, l, h, n)
  }

  /** A reachable block in no loop. */
  ghost predicate IsFree(g: Graph, entry: nat, l: Loops, n: nat) {
    Reachable(g, entry, n) && n !in l.latches && !InSome(g, l, n)
  }

  /** A loop in no other one. */
  ghost predicate IsTop(g: Graph, l: Loops, x: nat) {
    x in l.latches && !InSome(g, l, x)
  }

  ghost predicate IsRootBody(g: Graph, entry: nat, found: Record, parts: seq<Item>, free: seq<nat>, tops: seq<nat>) {
    && RootParts(parts, free, tops) && NoRepeat(free) && NoRepeat(tops)
    && Subsequence(free, found.others) && Subsequence(tops, found.loops)
    && (forall n: nat :: n in free <==> IsFree(g, entry, LoopsOf(found), n))
    && (forall x: nat :: x in tops <==> IsTop(g, LoopsOf(found), x))
  }

  lemma InSomeLoop(g: Graph, l: Loops, n: nat)
    requires forall h :: h in l.heads <==> h in l.latches
    ensures FirstLoop(g, l, |l.heads|, n).Some? <==> InSome(g, l, n)
  {
    FirstLoopIs(g, l, |l.heads|, n);
    if h :| InLoop(g, l, h, n) {
      var path :| LatchPath(g, l, h, path) && path[0] == n;
      assert h in l.heads;
    }
  }

  /** The tables before the root loop is made, in terms of membership in loops. */
  lemma FreeBeforeRoot(g: Graph, entry: nat, l: Loops, toLoop: map<nat, nat>, n: nat)
    requires Natural(g, entry, l) && OwnersAt(g, l, |l.heads|, toLoop) && Reachable(g, entry, n)
    ensures n in toLoop <==> !IsFree(g, entry, l, n)
  {
    InSomeLoop(g, l, n);
  }

  lemma OuterBeforeRoot(g: Graph, entry: nat, l: Loops, outer: map<nat, nat>)
    requires Natural(g, entry, l) && OuterAt(g, l, |l.heads|, outer)
    ensures TopsAreIn(g, l, outer, false)
  {
    forall x: nat ensures x in outer <==> x in l.latches && !IsTop(g, l, x) {
      InSomeLoop(g, l, x);
    }
    forall x | x in outer ensures outer[x] in l.latches {
      FirstLoopIs(g, l, |l.heads|, x);
    }
  }

  lemma OuterWithRoot(g: Graph, entry: nat, l: Loops, loops: seq<nat>, outer: map<nat, nat>, outer': map<nat, nat>)
    requires TopsAreIn(g, l, outer, false) && LoopsAdded(|g|, loops, outer, outer')
    requires forall x :: x in loops <==> x in l.latches
    ensures TopsAreIn(g, l, outer', true)
  {
  }

  /** As many owned blocks as visited ones: exactly if no reachable block is free. */
  lemma RootIsNeeded(g: Graph, entry: nat, preds: Graph, s: Search, l: Loops, toLoop: map<nat, nat>)
    requires PredLists(g, preds) && MatchingPreds(g, entry, preds) && Finished(g, entry, s) && Natural(g, entry, l)
    requires l.heads == HeadOrder(s.trace) && OwnersAt(g, l, |l.heads|, toLoop)
    requires forall h :: h in l.latches ==> l.latches[h] != []
    ensures |OtherOrder(s.trace)| + |HeadOrder(s.trace)| == |toLoop|
            <==> forall n :: Reachable(g, entry, n) ==> n in toLoop
  {
    ReachableIsListed(g, entry, s, entry);
    DistinctSize(s.post);
    if |OtherOrder(s.trace)| + |HeadOrder(s.trace)| == |toLoop| {
      AllOwned(g, entry, preds, s, l, toLoop);
    }
    if forall n :: Reachable(g, entry, n) ==> n in toLoop {
      forall n: nat ensures n in toLoop.Keys <==> n in Elements(s.post) {
        ReachableIsListed(g, entry, s, n);
        if n in toLoop {
          OwnedIsReachable(g, entry, preds, l, toLoop, n);
        }
      }
      assert toLoop.Keys == Elements(s.post);
    }
  }

  lemma NothingIsFree(g: Graph, entry: nat, preds: Graph, found: Record, toLoop: map<nat, nat>, outer: map<nat, nat>,
                      body: map<nat, seq<Item>>)
    requires Natural(g, entry, LoopsOf(found)) && |g| !in body
    requires OwnersAt(g, LoopsOf(found), |found.heads|, toLoop) && OuterAt(g, LoopsOf(found), |found.heads|, outer)
    requires forall n :: Reachable(g, entry, n) ==> n in toLoop
    ensures Rooted(g, entry, found, outer, body)
  {
    OuterBeforeRoot(g, entry, LoopsOf(found), outer);
    forall n | IsFree(g, entry, LoopsOf(found), n) ensures false {
      FreeBeforeRoot(g, entry, LoopsOf(found), toLoop, n);
    }
  }

  lemma RootedIs(g: Graph, entry: nat, preds: Graph, s: Search, found: Record, toLoop: map<nat, nat>,
                 outer: map<nat, nat>, body: map<nat, seq<Item>>, toLoop': map<nat, nat>, outer': map<nat, nat>,
                 body': map<nat, seq<Item>>)
    requires Natural(g, entry, LoopsOf(found)) && Finished(g, entry, s) && Recorded(found, s.trace)
    requires OwnersAt(g, LoopsOf(found), |found.heads|, toLoop) && OuterAt(g, LoopsOf(found), |found.heads|, outer)
    requires exists n :: Reachable(g, entry, n) && n !in toLoop
    requires RootAdded(|g|, found, toLoop, outer, body, toLoop', outer', body')
    ensures Rooted(g, entry, found, outer', body')
  {
    var l := LoopsOf(found);
    var free, tops :| Lists(free, found.others, toLoop) && Lists(tops, found.loops, outer)
                      && RootBody(|g|, body, body', free, tops);
    FreeIs(g, entry, s, found, toLoop, free);
    TopsAre(g, entry, s, found, outer, tops);
    OuterBeforeRoot(g, entry, l, outer);
    OuterWithRoot(g, entry, l, found.loops, outer, outer');
    var n: nat :| Reachable(g, entry, n) && n !in toLoop;
    FreeBeforeRoot(g, entry, l, toLoop, n);
    assert IsRootBody(g, entry, found, body'[|g|], free, tops);
  }

  lemma FreeIs(g: Graph, entry: nat, s: Search, found: Record, toLoop: map<nat, nat>, free: seq<nat>)
    requires Natural(g, entry, LoopsOf(found)) && Finished(g, entry, s) && Recorded(found, s.trace)
    requires OwnersAt(g, LoopsOf(found), |found.heads|, toLoop) && Lists(free, found.others, toLoop)
    ensures forall n: nat :: n in free <==> IsFree(g, entry, LoopsOf(found), n)
  {
    forall n: nat ensures n in free <==> IsFree(g, entry, LoopsOf(found), n) {
      ReachableIsListed(g, entry, s, n);
      HeadsAreExact(g, entry, s, n);
      if Reachable(g, entry, n) {
        FreeBeforeRoot(g, entry, LoopsOf(found), toLoop, n);
      }
    }
  }

  lemma TopsAre(g: Graph, entry: nat, s: Search, found: Record, outer: map<nat, nat>, tops: seq<nat>)
    requires Natural(g, entry, LoopsOf(found)) && Finished(g, entry, s) && Recorded(found, s.trace)
    requires OuterAt(g, LoopsOf(found), |found.heads|, outer) && Lists(tops, found.loops, outer)
    ensures forall x: nat :: x in tops <==> IsTop(g, LoopsOf(found), x)
    ensures forall x: nat :: x in found.loops <==> x in found.backEdgesSrc
  {
    OuterBeforeRoot(g, entry, LoopsOf(found), outer);
    forall x: nat ensures x in found.loops <==> x in found.backEdgesSrc {
      FoundIff(s.trace, x);
    }
  }

  lemma RootFits(g: Graph, entry: nat, preds: Graph, s: Search, found: Record, toLoop: map<nat, nat>,
                 outer: map<nat, nat>, body: map<nat, seq<Item>>, toLoop': map<nat, nat>, outer': map<nat, nat>,
                 body': map<nat, seq<Item>>)
    requires Finished(g, entry, s) && Recorded(found, s.trace)
    requires PredLists(g, preds) && MatchingPreds(g, entry, preds) && Shape(g, found)
             && Progress(g, entry, preds, found, |found.heads|, toLoop, outer, body)
    requires |found.others| + |found.heads| != |toLoop|
    requires RootAdded(|g|, found, toLoop, outer, body, toLoop', outer', body')
    ensures Regular(g, entry, found) ==> Owned(g, entry, LoopsOf(found), toLoop', outer')
                                         && Bodies(g, preds, found, |found.heads|, body')
                                         && Rooted(g, entry, found, outer', body')
  {
    if Regular(g, entry, found) {
      RestIsOwned(g, entry, s, LoopsOf(found), found.others, toLoop, toLoop', outer);
      OwnedStays(g, entry, LoopsOf(found), toLoop', outer, outer');
      BodiesStay(g, preds, found, body, body');
      RootIsNeeded(g, entry, preds, s, LoopsOf(found), toLoop);
      RootedIs(g, entry, preds, s, found, toLoop, outer, body, toLoop', outer', body');
    }
  }

  lemma OwnedStays(g: Graph, entry: nat, l: Loops, toLoop: map<nat, nat>, outer: map<nat, nat>, outer': map<nat, nat>)
    requires forall x :: x in outer ==> x in outer' && outer'[x] == outer[x]
    requires Owned(g, entry, l, toLoop, outer)
    ensures Owned(g, entry, l, toLoop, outer')
  {
  }

  lemma BodiesStay(g: Graph, preds: Graph, found: Record, body: map<nat, seq<Item>>, body': map<nat, seq<Item>>)
    requires Shape(g, found) && forall h :: h in body && h != |g| ==> h in body' && body'[h] == body[h]
    requires Bodies(g, preds, found, |found.heads|, body)
    ensures Bodies(g, preds, found, |found.heads|, body')
  {
    forall k | 0 <= k < |found.heads| ensures BodyIn(g, preds, found, body', found.heads[k], k < |found.heads|) {
      assert BodyIn(g, preds, found, body, found.heads[k], k < |found.heads|);
      assert found.heads[k] in found.heads;
    }
  }

  /** The lists of the visitor have no block twice. */
  lemma ListsAreOnce(g: Graph, entry: nat, s: Search, found: Record)
    requires Finished(g, entry, s) && Recorded(found, s.trace)
    ensures NoRepeat(found.others) && NoRepeat(found.loops)
  {
    FoundOnce(s.trace);
    OthersInFinishOrder(s.trace);
    DistinctSize(s.post);
    NoRepeatSize(s.post);
    SubsequenceOnce(found.others, s.post);
  }

  class LoopAnalyzer {
    const g: Graph
    const preds: Graph
    /** The loops as the search found them, by their headers. */
    const found: Record
    ghost const search: Search
    /** The loop of a block, by its header. */
    var toLoop: map<nat, nat>
    var body: map<nat, seq<Item>>
    var outer: map<nat, nat>

    constructor (g: Graph, entry: nat, preds: Graph)
      requires PredLists(g, preds) && entry < |g| && MatchingPreds(g, entry, preds) && NoSelfEdges(g)
      ensures this.g == g && this.preds == preds && Finished(g, entry, search) && Recorded(found, search.trace)
      ensures IsFlagged(g, entry, preds, found)
      ensures Regular(g, entry, found) ==> Owned(g, entry, LoopsOf(found), toLoop, outer)
                                           && Bodies(g, preds, found, |found.heads|, body)
                                           && Rooted(g, entry, found, outer, body)
      ensures IsAnalysis(g, preds, found, Tables(toLoop, outer, body))
    {
      var r; ghost var s;
      r, s := CollectLoops(g, entry, preds);
      this.g, this.preds, found, search := g, preds, r, s;
      toLoop, body, outer := r.toLoop, r.body, map[];
      new;
      ProgressAtStart(g, entry, preds, found);
      ghost var ts := PopulateAll(entry);
      AddRoot(entry);
    }

    ghost function Now(): Tables
      reads this
    {
      Tables(toLoop, outer, body)
    }

    /** The first loops have been populated; `ts` are the tables before and after each. */
    ghost predicate Reached(entry: nat, ts: seq<Tables>)
      reads this
    {
      && Stages(preds, found, ts) && ts[|ts| - 1] == Now() && body.Keys == found.body.Keys
      && Progress(g, entry, preds, found, |ts| - 1, toLoop, outer, body)
    }

    method PopulateAll(entry: nat) returns (ghost ts: seq<Tables>)
      requires PredLists(g, preds) && Shape(g, found)
      requires Progress(g, entry, preds, found, 0, toLoop, outer, body)
      requires Now() == Tables(found.toLoop, map[], found.body)
      modifies this
      ensures Reached(entry, ts) && |ts| == |found.heads| + 1
    {
      ts := [Now()];
      for i := 0 to |found.heads|
        invariant Reached(entry, ts) && |ts| == i + 1
      {
        ts := PopulateOne(entry, i, ts);
      }
    }

    method PopulateOne(entry: nat, i: nat, ghost ts: seq<Tables>) returns (ghost ts': seq<Tables>)
      requires PredLists(g, preds) && Shape(g, found) && Reached(entry, ts) && |ts| == i + 1 <= |found.heads|
      modifies this
      ensures Reached(entry, ts') && |ts'| == i + 2
    {
      PopulateNext(entry, i);
      NextStage(preds, found, ts, Now());
      ts' := ts + [Now()];
    }

    method PopulateNext(entry: nat, i: nat)
      requires PredLists(g, preds) && Shape(g, found) && i < |found.heads|
      requires Progress(g, entry, preds, found, i, toLoop, outer, body)
      requires body.Keys == found.body.Keys
      modifies this
      ensures Progress(g, entry, preds, found, i + 1, toLoop, outer, body)
      ensures body.Keys == found.body.Keys && Populated(preds, found, found.heads[i], old(Now()), Now())
    {
      ghost var h := found.heads[i];
      assert h in found.heads;
      ghost var toLoop0, outer0, body0 := toLoop, outer, body;
      ghost var met, mid := Populate(found.heads[i]);
      assert PopulatedBy(preds, found, h, old(Now()), Now(), mid, met);
      if Regular(g, entry, found) && MatchingPreds(g, entry, preds) {
        NextProgress(g, entry, preds, found, i, toLoop0, outer0, body0, mid, met, toLoop, outer, body);
      }
    }

    /** Without blocks in no loop there is no root loop. */
    method AddRoot(entry: nat)
      requires PredLists(g, preds) && MatchingPreds(g, entry, preds) && Finished(g, entry, search)
      requires Recorded(found, search.trace) && Shape(g, found) && |g| !in body
      requires Progress(g, entry, preds, found, |found.heads|, toLoop, outer, body)
      modifies this
      ensures Regular(g, entry, found) ==> Owned(g, entry, LoopsOf(found), toLoop, outer)
                                           && Bodies(g, preds, found, |found.heads|, body)
                                           && Rooted(g, entry, found, outer, body)
      ensures Closed(|g|, found, old(Now()), Now())
    {
      if |found.others| + |found.heads| == |toLoop| {
        if Regular(g, entry, found) {
          AllOwned(g, entry, preds, search, LoopsOf(found), toLoop);
          OwnedFrom(g, entry, LoopsOf(found), toLoop, outer);
          NothingIsFree(g, entry, preds, found, toLoop, outer, body);
        }
        return;
      }
      CreateRoot(entry);
    }

    method CreateRoot(entry: nat)
      requires Finished(g, entry, search) && Recorded(found, search.trace) && |g| !in body
      requires PredLists(g, preds) && MatchingPreds(g, entry, preds) && Shape(g, found)
               && Progress(g, entry, preds, found, |found.heads|, toLoop, outer, body)
      requires |found.others| + |found.heads| != |toLoop|
      modifies this
      ensures Regular(g, entry, found) ==> Owned(g, entry, LoopsOf(found), toLoop, outer)
                                           && Bodies(g, preds, found, |found.heads|, body)
                                           && Rooted(g, entry, found, outer, body)
      ensures Closed(|g|, found, old(Now()), Now())
    {
      ghost var toLoop0, outer0, body0 := toLoop, outer, body;
      ListsAreOnce(g, entry, search, found);
      FillRoot();
      RootFits(g, entry, preds, search, found, toLoop0, outer0, body0, toLoop, outer, body);
    }

    method FillRoot()
      requires NoRepeat(found.others) && NoRepeat(found.loops) && |g| !in body
      modifies this
      ensures RootAdded(|g|, found, old(toLoop), old(outer), old(body), toLoop, outer, body)
    {
      body := body[|g| := []];
      ghost var free := AddFreeNodes();
      ghost var tops := AddOutermost(free);
      assert RootBody(|g|, old(body), body, free, tops);
    }

    method AddFreeNodes() returns (ghost free: seq<nat>)
      requires NoRepeat(found.others) && |g| in body && body[|g|] == []
      modifies this`toLoop, this`body
      ensures FreePart(|g|, found.others, old(toLoop), old(body), toLoop, body, free)
    {
      free := [];
      for i := 0 to |found.others|
        invariant FreePart(|g|, found.others[..i], old(toLoop), old(body), toLoop, body, free)
      {
        var node := found.others[i];
        assert found.others[..i + 1] == found.others[..i] + [node];
        NoRepeatPrefix(found.others, i);
        free := AddFreeNode(node, found.others[..i], old(toLoop), old(body), free);
      }
      assert found.others[..|found.others|] == found.others;
    }

    /** `done` are the blocks before, `owners` and `bodies` the tables before all of them. */
    method AddFreeNode(node: nat, ghost done: seq<nat>, ghost owners: map<nat, nat>,
                       ghost bodies: map<nat, seq<Item>>, ghost free: seq<nat>)
      returns (ghost free': seq<nat>)
      requires FreePart(|g|, done, owners, bodies, toLoop, body, free) && node !in done
      modifies this`toLoop, this`body
      ensures FreePart(|g|, done + [node], owners, bodies, toLoop, body, free')
    {
      NextFree(|g|, done, owners, bodies, toLoop, body, free, node);
      free' := free;
      if node !in toLoop {
        toLoop := toLoop[node := |g|];
        body := body[|g| := body[|g|] + [Node(node)]];
        free' := free + [node];
      }
    }

    method AddOutermost(ghost free: seq<nat>) returns (ghost tops: seq<nat>)
      requires NoRepeat(found.loops) && |g| in body && RootParts(body[|g|], free, [])
      modifies this`body, this`outer
      ensures TopPart(|g|, found.loops, old(outer), old(body), outer, body, free, tops)
    {
      tops := [];
      for i := 0 to |found.loops|
        invariant TopPart(|g|, found.loops[..i], old(outer), old(body), outer, body, free, tops)
      {
        var loop := found.loops[i];
        assert found.loops[..i + 1] == found.loops[..i] + [loop];
        NoRepeatPrefix(found.loops, i);
        NextTop(|g|, found.loops[..i], old(outer), old(body), outer, body, free, tops, loop);
        if loop !in outer {
          body := body[|g| := body[|g|] + [Inner(loop)]];
          outer := outer[loop := |g|];
          tops := tops + [loop];
        }
      }
      assert found.loops[..|found.loops|] == found.loops;
    }

    method Associate(h: nat)
      requires h in found.backEdgesSrc
      modifies this`toLoop
      ensures Associated(old(toLoop), h, found.backEdgesSrc[h], toLoop)
    {
      var srcs := found.backEdgesSrc[h];
      for i := 0 to |srcs|
        invariant Associated(old(toLoop), h, srcs[..i], toLoop)
      {
        assert srcs[..i + 1] == srcs[..i] + [srcs[i]];
        if srcs[i] !in toLoop {
          toLoop := toLoop[srcs[i] := h];
        }
      }
      assert srcs[..|srcs|] == srcs;
    }

    /** A block met on the search: into the body, or its loop becomes an inner one. `base` is the body as it
        was before the search. */
    method Meet(h: nat, n: nat, ghost base: map<nat, seq<Item>>, ghost f: Filling)
      requires Filled(f, h, base, toLoop, outer, body)
      modifies this
      ensures Filled(MeetOne(f, h, n), h, base, toLoop, outer, body)
    {
      if n !in toLoop {
        toLoop := toLoop[n := h];
        body := body[h := body[h] + [Node(n)]];
        assert base[h] + f.items + [Node(n)] == base[h] + (f.items + [Node(n)]);
      } else {
        var inner := toLoop[n];
        if inner !in outer {
          body := body[h := body[h] + [Inner(inner)]];
          outer := outer[inner := h];
          assert base[h] + f.items + [Inner(inner)] == base[h] + (f.items + [Inner(inner)]);
        }
      }
    }

    /** Fills the loop of `h` by a search backwards from its latches. `met`: the blocks of the loop other than
        its header and latches, in the order in which the search meets them; `mid`: the owners once the
        latches have theirs. */
    method Populate(h: nat) returns (ghost met: seq<nat>, ghost mid: map<nat, nat>)
      requires PredLists(g, preds) && Shape(g, found) && h in found.backEdgesSrc && h in body
      modifies this
      ensures Associated(old(toLoop), h, found.backEdgesSrc[h], mid)
      ensures !found.reducible[h] ==> toLoop == mid && body == old(body) && outer == old(outer)
      ensures found.reducible[h] ==>
          && IsMeetOrder(preds, h, found.backEdgesSrc[h], met) && OncePerNode(g, LoopsOf(found), h, met)
          && Filled(MeetAll(Filling(mid, old(outer), []), h, met), h, old(body), toLoop, outer, body)
    {
      met := [];
      Associate(h);
      mid := toLoop;
      if found.reducible[h] {
        met := SearchBack(h);
      }
    }

    /** The blocks of the loop are met backwards from the latches, depth first. */
    method SearchBack(h: nat) returns (ghost met: seq<nat>)
      requires PredLists(g, preds) && Shape(g, found) && h in found.backEdgesSrc && h in body
      modifies this
      ensures IsMeetOrder(preds, h, found.backEdgesSrc[h], met) && OncePerNode(g, LoopsOf(found), h, met)
      ensures Filled(MeetAll(Filling(old(toLoop), old(outer), []), h, met), h, old(body), toLoop, outer, body)
    {
      met := [];
      ghost var l, start, k := LoopsOf(found), Filling(toLoop, outer, []), 0;
      var visited, toVisit := VisitLatches(h);
      assert body[h] + [] == body[h];
      BackFacts(g, preds, l, h, 0);
      while toVisit.Push?
        invariant BackAt(g, preds, h, l.latches[h], k, toVisit, visited, met)
        invariant Filled(MeetAll(start, h, met), h, old(body), toLoop, outer, body)
        decreases |g| - |visited|, Work(preds, toVisit)
      {
        BackRound(g, preds, l, h, k, toVisit, visited, met);
        var j := FindUnvisited(h, toVisit, visited);
        if j == |preds[toVisit.node]| {
          toVisit := toVisit.below;
        } else {
          var n := preds[toVisit.node][j];
          Meet(h, n, old(body), MeetAll(start, h, met));
          assert (met + [n])[..|met|] == met;
          toVisit := Push(n, 0, toVisit.(next := j + 1));
          visited, met := visited + {n}, met + [n];
        }
        k := k + 1;
      }
      MeetOrderIsOnce(g, preds, l, h, met);
    }

    method VisitLatches(h: nat) returns (visited: set<nat>, toVisit: Stack)
      requires h in found.backEdgesSrc
      ensures toVisit == LatchStack(found.backEdgesSrc[h]) && visited == Elements(found.backEdgesSrc[h])
    {
      visited, toVisit := {}, Empty;
      var srcs := found.backEdgesSrc[h];
      for i := 0 to |srcs|
        invariant toVisit == LatchStack(srcs[..i]) && visited == Elements(srcs[..i])
      {
        assert srcs[..i + 1][..i] == srcs[..i];
        toVisit := Push(srcs[i], 0, toVisit);
        visited := visited + {srcs[i]};
      }
      assert srcs[..|srcs|] == srcs;
    }

    /** The next predecessor of the top node that is neither visited nor the header. */
    method FindUnvisited(h: nat, stack: Stack, visited: set<nat>) returns (k: nat)
      requires stack.Push? && stack.node < |preds| && stack.next <= |preds[stack.node]|
      ensures k == Unvisited(preds[stack.node], stack.next, h, visited)
    {
      k := stack.next;
      while k < |preds[stack.node]| && (preds[stack.node][k] == h || preds[stack.node][k] in visited)
        invariant stack.next <= k <= |preds[stack.node]|
        invariant Unvisited(preds[stack.node], k, h, visited) == Unvisited(preds[stack.node], stack.next, h, visited)
      {
        k := k + 1;
      }
    }
  }

  lemma HeadsDiffer(g: Graph, entry: nat, l: Loops, i: nat, k: nat)
    requires Natural(g, entry, l) && i < |l.heads| && k < |l.heads| && i != k
    ensures l.heads[i] != l.heads[k]
  {
    assert Ordered(g, entry, l.heads[if i < k then i else k], l.heads[if i < k then k else i]);
  }

  /** The blocks of a loop are reachable. */
  lemma {:induction false} LoopIsReachable(g: Graph, entry: nat, preds: Graph, l: Loops, h: nat, path: seq<nat>)
    requires PredLists(g, preds) && MatchingPreds(g, entry, preds) && Natural(g, entry, l) && LatchPath(g, l, h, path)
    ensures Reachable(g, entry, path[0])
    decreases |path|
  {
    if |path| == 1 {
      assert IsLatch(g, entry, h, path[0]);
    } else {
      PathBack(g, path, 1);
      PathEdge(g, path, 0);
      assert LatchPath(g, l, h, path[1..]);
      LoopIsReachable(g, entry, preds, l, h, path[1..]);
      var v := path[1];
      var j :| 0 <= j < |preds[v]| && preds[v][j] == path[0];
    }
  }

  lemma NextFilling(g: Graph, entry: nat, preds: Graph, l: Loops, i: nat, toLoop: map<nat, nat>, outer: map<nat, nat>,
                    mid: map<nat, nat>, met: seq<nat>)
    requires PredLists(g, preds) && MatchingPreds(g, entry, preds)
    requires Natural(g, entry, l) && LoopsAreMet(g, l) && i < |l.heads|
    requires OwnersAt(g, l, i, toLoop) && OuterAt(g, l, i, outer)
    requires var h := l.heads[i]; Associated(toLoop, h, l.latches[h], mid) && OncePerNode(g, l, h, met)
    ensures var f := MeetAll(Filling(mid, outer, []), l.heads[i], met);
            && OwnersAt(g, l, i + 1, f.toLoop) && OuterAt(g, l, i + 1, f.outer)
            && f.items == PartsMet(g, l, l.heads[i], met) && BodyOk(g, l, l.heads[i], f.items)
  {
    var h := l.heads[i];
    var f := MeetAll(Filling(mid, outer, []), h, met);
    MeetAllIs(mid, outer, h, met);
    assert h in l.heads;
    forall n | InLoop(g, l, h, n) ensures Reachable(g, entry, n) {
      var path :| LatchPath(g, l, h, path) && path[0] == n;
      LoopIsReachable(g, entry, preds, l, h, path);
    }
    NextLoop(g, entry, l, i, toLoop, outer, mid, Elements(met), f.toLoop, f.outer, f.items);
    FilledInOrder(g, entry, l, i, toLoop, outer, mid, met);
  }

  lemma TimesFit(g: Graph, entry: nat, order: seq<nat>, times: map<nat, nat>, preds: seq<seq<nat>>)
    requires IsTimes(g, entry, order, times) && |preds| == |order| && ValidPreds(preds) && Discovered(preds)
    ensures TreeFits(preds, times)
  {
  }

  lemma EventsTimed(g: Graph, entry: nat, s: Search, times: map<nat, nat>)
    requires ValidGraph(g) && Finished(g, entry, s) && forall n :: n in times <==> Reachable(g, entry, n)
    ensures forall e :: e in s.trace && e.BackEdge? ==> e.src in times && e.tar in times
  {
    forall e | e in s.trace && e.BackEdge? ensures e.src in times && e.tar in times {
      OnlyEdgesAreReported(g, entry, s, e.src, e.edge, e.tar);
      var path :| EntryPath(g, entry, path, e.src);
      assert e.tar in g[e.src];
      ExtendPath(g, entry, path, e.src, e.tar);
    }
  }

  lemma {:induction false} ListedWhenFinished(trace: seq<Event>, n: nat)
    ensures n in FinishOrder(trace) <==> n in HeadOrder(trace) || n in OtherOrder(trace)
    ensures |FinishOrder(trace)| == |HeadOrder(trace)| + |OtherOrder(trace)|
  {
    if trace != [] {
      ListedWhenFinished(trace[..|trace| - 1], n);
    }
  }

  lemma ReachableIsListed(g: Graph, entry: nat, s: Search, n: nat)
    requires Finished(g, entry, s)
    ensures Reachable(g, entry, n) <==> n in HeadOrder(s.trace) || n in OtherOrder(s.trace)
    ensures n in s.post <==> Reachable(g, entry, n)
    ensures |s.post| == |HeadOrder(s.trace)| + |OtherOrder(s.trace)|
  {
    SearchIsComplete(g, entry, s);
    ListedWhenFinished(s.trace, n);
    if n in s.post {
      var i :| 0 <= i < |s.post| && s.post[i] == n;
    }
    if n in s.rank {
      assert s.post[s.rank[n]] == n;
    }
  }

  /** If as many blocks have owners as were visited, all of them have. */
  lemma AllOwned(g: Graph, entry: nat, preds: Graph, s: Search, l: Loops, toLoop: map<nat, nat>)
    requires PredLists(g, preds) && MatchingPreds(g, entry, preds) && Finished(g, entry, s) && Natural(g, entry, l)
    requires l.heads == HeadOrder(s.trace) && OwnersAt(g, l, |l.heads|, toLoop)
    requires forall h :: h in l.latches ==> l.latches[h] != []
    requires |OtherOrder(s.trace)| + |HeadOrder(s.trace)| == |toLoop|
    ensures forall n :: Reachable(g, entry, n) ==> n in toLoop
  {
    forall n | n in toLoop.Keys ensures n in Elements(s.post) {
      OwnedIsReachable(g, entry, preds, l, toLoop, n);
      ReachableIsListed(g, entry, s, n);
    }
    ReachableIsListed(g, entry, s, entry);
    DistinctSize(s.post);
    SubsetSize(toLoop.Keys, Elements(s.post));
    forall n: nat | Reachable(g, entry, n) ensures n in toLoop {
      ReachableIsListed(g, entry, s, n);
      assert n in Elements(s.post);
    }
  }

  lemma OwnedIsReachable(g: Graph, entry: nat, preds: Graph, l: Loops, toLoop: map<nat, nat>, n: nat)
    requires PredLists(g, preds) && MatchingPreds(g, entry, preds) && Natural(g, entry, l)
    requires OwnersAt(g, l, |l.heads|, toLoop) && n in toLoop
    requires forall h :: h in l.latches ==> l.latches[h] != []
    ensures Reachable(g, entry, n)
  {
    if n in l.latches {
      assert l.latches[n][0] in l.latches[n];
      assert IsLatch(g, entry, n, l.latches[n][0]);
      HeaderIsReachable(g, entry, n, l.latches[n][0]);
    } else {
      FirstIsReachable(g, entry, preds, l, n);
    }
  }

  lemma FirstIsReachable(g: Graph, entry: nat, preds: Graph, l: Loops, n: nat)
    requires PredLists(g, preds) && MatchingPreds(g, entry, preds) && Natural(g, entry, l)
    requires FirstLoop(g, l, |l.heads|, n).Some?
    ensures Reachable(g, entry, n)
  {
    FirstLoopIs(g, l, |l.heads|, n);
    var h := FirstLoop(g, l, |l.heads|, n).value;
    assert InLoop(g, l, h, n);
    var path :| LatchPath(g, l, h, path) && path[0] == n;
    LoopIsReachable(g, entry, preds, l, h, path);
  }

  lemma RecordFacts(g: Graph, entry: nat, s: Search, r: Record)
    requires ValidGraph(g) && Finished(g, entry, s) && NoSelfEdges(g) && Recorded(r, s.trace)
    ensures forall h :: h in r.heads ==> h in r.backEdgesSrc
    ensures forall h :: h in r.backEdgesSrc ==> h < |g| && r.backEdgesSrc[h] != []
    ensures forall h, u :: h in r.backEdgesSrc && u in r.backEdgesSrc[h] ==> u < |g| && u != h
  {
    forall h: nat ensures h in r.heads <==> h in r.backEdgesSrc {
      HeadsAreExact(g, entry, s, h);
    }
    forall h, u | h in r.backEdgesSrc && u in r.backEdgesSrc[h] ensures u < |g| && u != h && h < |g| {
      LatchFacts(g, entry, s, h, u);
    }
    forall h | h in r.backEdgesSrc ensures h < |g| && r.backEdgesSrc[h] != [] {
      assert r.backEdgesSrc[h][0] in r.backEdgesSrc[h];
    }
  }
}
