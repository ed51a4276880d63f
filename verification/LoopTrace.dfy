/** The loops of a graph as the depth-first search reports them. */
module LoopTrace {
  import opened FiniteSets
  import opened Graphs
  import opened DfsState
  import opened Dfs
  import opened LoopSpec

  /** The sources of the reported edges to `t`, in order. */
  function Sources(trace: seq<Event>, t: nat): seq<nat> {
    if trace == [] then []
    else
      var before := Sources(trace[..|trace| - 1], t);
      match trace[|trace| - 1]
      case BackEdge(u, _, tar) => if tar == t then before + [u] else before
      case _ => before
  }

  /** The nodes with a reported edge to them, in the order in which they were finished. */
  function HeadOrder(trace: seq<Event>): seq<nat> {
    if trace == [] then []
    else
      var before := HeadOrder(trace[..|trace| - 1]);
      match trace[|trace| - 1]
      case Finish(n) => if Sources(trace[..|trace| - 1], n) != [] then before + [n] else before
      case _ => before
  }

  /** The other nodes, in that order. */
  function OtherOrder(trace: seq<Event>): seq<nat> {
    if trace == [] then []
    else
      var before := OtherOrder(trace[..|trace| - 1]);
      match trace[|trace| - 1]
      case Finish(n) => if Sources(trace[..|trace| - 1], n) == [] then before + [n] else before
      case _ => before
  }

  /** The nodes with a reported edge to them, in the order of the first such edge: the loops as they are found. */
  function FoundOrder(trace: seq<Event>): seq<nat> {
    if trace == [] then []
    else
      var before := FoundOrder(trace[..|trace| - 1]);
      match trace[|trace| - 1]
      case BackEdge(_, _, tar) => if Sources(trace[..|trace| - 1], tar) == [] then before + [tar] else before
      case _ => before
  }

  /** Sources are listed as they are reported. */
  lemma {:induction false} SourcesJoin(a: seq<Event>, b: seq<Event>, t: nat)
    ensures Sources(a + b, t) == Sources(a, t) + Sources(b, t)
    ensures |b| == 1 ==> Sources(b, t) == if b[0].BackEdge? && b[0].tar == t then [b[0].src] else []
  {
    if b == [] {
      assert a + b == a;
    } else {
      var front, e := b[..|b| - 1], b[|b| - 1];
      assert (a + b)[..|a + b| - 1] == a + front && (a + b)[|a + b| - 1] == e;
      SourcesJoin(a, front, t);
    }
  }

  lemma {:induction false} FoundIff(trace: seq<Event>, t: nat)
    ensures t in FoundOrder(trace) <==> Sources(trace, t) != []
  {
    if trace != [] {
      FoundIff(trace[..|trace| - 1], t);
    }
  }

  lemma {:induction false} FoundOnce(trace: seq<Event>)
    ensures NoRepeat(FoundOrder(trace))
  {
    if trace != [] {
      var front, e := trace[..|trace| - 1], trace[|trace| - 1];
      FoundOnce(front);
      if e.BackEdge? {
        FoundIff(front, e.tar);
        var before := FoundOrder(front);
        assert (before + [e.tar])[..|before|] == before;
      }
    }
  }

  /** The first edge back to a loop comes before any edge back to a loop found later. */
  lemma {:induction false} FoundFirst(trace: seq<Event>, i: nat, j: nat) returns (k: nat)
    requires i < j < |FoundOrder(trace)|
    ensures k <= |trace|
    ensures Sources(trace[..k], FoundOrder(trace)[i]) != [] && Sources(trace[..k], FoundOrder(trace)[j]) == []
  {
    var front, e := trace[..|trace| - 1], trace[|trace| - 1];
    if j < |FoundOrder(front)| {
      k := FoundFirst(front, i, j);
      assert trace[..k] == front[..k];
    } else {
      k := |trace| - 1;
      FoundIff(front, FoundOrder(trace)[i]);
      assert FoundOrder(trace)[i] == FoundOrder(front)[i];
    }
  }

  /** A node with a reported edge to it is open, or has been finished as a header. */
  lemma {:induction false} HeadsAreFinished(trace: seq<Event>, t: nat)
    requires Play(trace).Some? && Sources(trace, t) != []
    ensures t in Elems(Play(trace).value) || t in HeadOrder(trace)
  {
    var front, e := trace[..|trace| - 1], trace[|trace| - 1];
    assert Play(front).Some?;
    if Sources(front, t) != [] {
      HeadsAreFinished(front, t);
    }
  }

  lemma {:induction false} HeadsHaveSources(trace: seq<Event>, t: nat)
    requires t in HeadOrder(trace)
    ensures Sources(trace, t) != []
  {
    var front, e := trace[..|trace| - 1], trace[|trace| - 1];
    if t in HeadOrder(front) {
      HeadsHaveSources(front, t);
    }
  }

  /** The headers are exactly the nodes with a reported edge to them. */
  lemma HeadsAreExact(g: Graph, entry: nat, s: Search, t: nat)
    requires Finished(g, entry, s)
    ensures t in HeadOrder(s.trace) <==> Sources(s.trace, t) != []
  {
    SearchIsComplete(g, entry, s);
    if Sources(s.trace, t) != [] {
      HeadsAreFinished(s.trace, t);
    }
    if t in HeadOrder(s.trace) {
      HeadsHaveSources(s.trace, t);
    }
  }

  lemma {:induction false} SourceIsReported(trace: seq<Event>, t: nat, u: nat) returns (j: nat)
    requires u in Sources(trace, t)
    ensures BackEdge(u, j, t) in trace
  {
    var front, e := trace[..|trace| - 1], trace[|trace| - 1];
    assert trace == front + [e];
    if e.BackEdge? && e.tar == t && e.src == u {
      j := e.edge;
    } else {
      j := SourceIsReported(front, t, u);
    }
  }

  // ----- order -----

  /** `a` is `b` with some elements left out. */
  predicate Subsequence(a: seq<nat>, b: seq<nat>) {
    a == [] ||
    (b != [] && if a[|a| - 1] == b[|b| - 1] then Subsequence(a[..|a| - 1], b[..|b| - 1])
                else Subsequence(a, b[..|b| - 1]))
  }

  lemma {:induction false} SubsequencePlace(a: seq<nat>, b: seq<nat>, i: nat) returns (p: nat)
    requires Subsequence(a, b) && i < |a|
    ensures p < |b| && b[p] == a[i]
  {
    if a[|a| - 1] == b[|b| - 1] {
      if i == |a| - 1 {
        p := |b| - 1;
      } else {
        p := SubsequencePlace(a[..|a| - 1], b[..|b| - 1], i);
      }
    } else {
      p := SubsequencePlace(a, b[..|b| - 1], i);
    }
  }

  lemma {:induction false} SubsequencePlaces(a: seq<nat>, b: seq<nat>, i: nat, j: nat) returns (p: nat, q: nat)
    requires Subsequence(a, b) && i < j < |a|
    ensures p < q < |b| && b[p] == a[i] && b[q] == a[j]
  {
    if a[|a| - 1] == b[|b| - 1] {
      if j == |a| - 1 {
        p := SubsequencePlace(a[..|a| - 1], b[..|b| - 1], i);
        q := |b| - 1;
      } else {
        p, q := SubsequencePlaces(a[..|a| - 1], b[..|b| - 1], i, j);
      }
    } else {
      p, q := SubsequencePlaces(a, b[..|b| - 1], i, j);
    }
  }

  lemma {:induction false} SubsequenceSkips(a: seq<nat>, b: seq<nat>, x: nat)
    requires Subsequence(a, b)
    ensures Subsequence(a, b + [x])
    decreases |b|, 1
  {
    assert (b + [x])[..|b|] == b;
    if a != [] && a[|a| - 1] == x {
      SubsequenceFront(a, b);
    }
  }

  lemma {:induction false} SubsequenceFront(a: seq<nat>, b: seq<nat>)
    requires Subsequence(a, b) && a != []
    ensures Subsequence(a[..|a| - 1], b)
    decreases |b|, 0
  {
    var front := a[..|a| - 1];
    if a[|a| - 1] == b[|b| - 1] {
      SubsequenceSkips(front, b[..|b| - 1], b[|b| - 1]);
      assert b == b[..|b| - 1] + [b[|b| - 1]];
    } else {
      SubsequenceFront(a, b[..|b| - 1]);
      SubsequenceSkips(front, b[..|b| - 1], b[|b| - 1]);
      assert b == b[..|b| - 1] + [b[|b| - 1]];
    }
  }

  lemma {:induction false} HeadsInFinishOrder(trace: seq<Event>)
    ensures Subsequence(HeadOrder(trace), FinishOrder(trace))
  {
    if trace != [] {
      var front, e := trace[..|trace| - 1], trace[|trace| - 1];
      HeadsInFinishOrder(front);
      if e.Finish? {
        var before, heads := FinishOrder(front), HeadOrder(front);
        SubsequenceSkips(heads, before, e.node);
        assert (heads + [e.node])[..|heads|] == heads && (before + [e.node])[..|before|] == before;
      }
    }
  }

  lemma {:induction false} OthersInFinishOrder(trace: seq<Event>)
    ensures Subsequence(OtherOrder(trace), FinishOrder(trace))
  {
    if trace != [] {
      var front, e := trace[..|trace| - 1], trace[|trace| - 1];
      OthersInFinishOrder(front);
      if e.Finish? {
        var before, others := FinishOrder(front), OtherOrder(front);
        SubsequenceSkips(others, before, e.node);
        assert (others + [e.node])[..|others|] == others && (before + [e.node])[..|before|] == before;
      }
    }
  }

  lemma {:induction false} SubsequenceHas(a: seq<nat>, b: seq<nat>, x: nat)
    requires Subsequence(a, b) && x in a
    ensures x in b
  {
    var i :| 0 <= i < |a| && a[i] == x;
    var p := SubsequencePlace(a, b, i);
  }

  lemma {:induction false} SubsequenceOnce(a: seq<nat>, b: seq<nat>)
    requires Subsequence(a, b) && NoRepeat(b)
    ensures NoRepeat(a)
  {
    if a != [] {
      var front := b[..|b| - 1];
      if a[|a| - 1] == b[|b| - 1] {
        SubsequenceOnce(a[..|a| - 1], front);
        if a[|a| - 1] in a[..|a| - 1] {
          SubsequenceHas(a[..|a| - 1], front, a[|a| - 1]);
        }
      } else {
        SubsequenceOnce(a, front);
      }
    }
  }

  // ----- the loops are natural if the latches are dominated -----

  ghost predicate SourcesAre(trace: seq<Event>, latches: map<nat, seq<nat>>) {
    forall t: nat :: (t in latches <==> Sources(trace, t) != []) && (t in latches ==> latches[t] == Sources(trace, t))
  }

  ghost predicate HeadersDominate(g: Graph, entry: nat, latches: map<nat, seq<nat>>) {
    forall h, u :: h in latches && u in latches[h] ==> Dominates(g, entry, h, u)
  }

  ghost predicate NoSelfEdges(g: Graph) {
    forall v :: 0 <= v < |g| ==> v !in g[v]
  }

  lemma LatchFacts(g: Graph, entry: nat, s: Search, h: nat, u: nat)
    requires ValidGraph(g) && Finished(g, entry, s) && NoSelfEdges(g) && u in Sources(s.trace, h)
    ensures u < |g| && h < |g| && h in g[u] && h != u && Reachable(g, entry, u)
  {
    var j := SourceIsReported(s.trace, h, u);
    OnlyEdgesAreReported(g, entry, s, u, j, h);
  }

  lemma HeadsAreOrdered(g: Graph, entry: nat, s: Search, i: nat, j: nat)
    requires Finished(g, entry, s) && i < j < |HeadOrder(s.trace)|
    ensures Ordered(g, entry, HeadOrder(s.trace)[i], HeadOrder(s.trace)[j])
  {
    HeadsInFinishOrder(s.trace);
    var p, q := SubsequencePlaces(HeadOrder(s.trace), s.post, i, j);
    var h, later := s.post[p], s.post[q];
    assert s.rank[h] == p && s.rank[later] == q;
    SearchIsComplete(g, entry, s);
    if Dominates(g, entry, h, later) {
      DominatorFinishesLater(g, entry, s, h, later);
    }
  }

  /** Reducible loops make a natural loop structure: inner headers are finished first. */
  lemma LoopsAreNatural(g: Graph, entry: nat, s: Search, latches: map<nat, seq<nat>>)
    requires ValidGraph(g) && entry < |g| && Finished(g, entry, s) && NoSelfEdges(g)
    requires SourcesAre(s.trace, latches) && HeadersDominate(g, entry, latches)
    ensures Natural(g, entry, Loops(HeadOrder(s.trace), latches))
  {
    var l := Loops(HeadOrder(s.trace), latches);
    forall h: nat ensures h in l.heads <==> h in l.latches {
      HeadsAreExact(g, entry, s, h);
    }
    forall h, u | h in l.latches && u in l.latches[h] ensures IsLatch(g, entry, h, u) {
      LatchFacts(g, entry, s, h, u);
    }
    forall i, j | 0 <= i < j < |l.heads| ensures Ordered(g, entry, l.heads[i], l.heads[j]) {
      HeadsAreOrdered(g, entry, s, i, j);
    }
  }
}
