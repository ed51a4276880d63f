/** Depth-first search as a state machine: the steps of the loop and what every step keeps. */
module DfsState {
  import opened Wrappers
  import opened Graphs

  /** The calls the search makes to its visitor. A back edge is reported with the place `edge` of its
      target in the successor list of its source. */
  datatype Event = Discover(node: nat) | Finish(node: nat) | BackEdge(src: nat, edge: nat, tar: nat)

  /** Nodes, innermost first. */
  datatype Chain = Nil | Link(node: nat, outer: Chain)

  function Elems(c: Chain): set<nat> {
    match c
    case Nil => {}
    case Link(n, outer) => {n} + Elems(outer)
  }

  ghost predicate NoDup(c: Chain) {
    c.Link? ==> c.node !in Elems(c.outer) && NoDup(c.outer)
  }

  /** The nodes discovered and not finished after a sequence of events. None when a finish does not match
      the latest open discovery, or a back edge does not lead from it to an open node. */
  function Play(trace: seq<Event>): Option<Chain> {
    if trace == [] then Some(Nil)
    else
      match Play(trace[..|trace| - 1])
      case None => None
      case Some(open) =>
        match trace[|trace| - 1]
        case Discover(n) => Some(Link(n, open))
        case Finish(n) => if open.Link? && open.node == n then Some(open.outer) else None
        case BackEdge(u, _, t) => if open.Link? && open.node == u && t in Elems(open) then Some(open) else None
  }

  /** The nodes in the order in which they were finished. */
  function FinishOrder(trace: seq<Event>): seq<nat> {
    if trace == [] then []
    else
      var before := FinishOrder(trace[..|trace| - 1]);
      match trace[|trace| - 1]
      case Finish(n) => before + [n]
      case _ => before
  }

  /** The nodes in the order in which they were discovered. */
  function DiscoverOrder(trace: seq<Event>): seq<nat> {
    if trace == [] then []
    else
      var before := DiscoverOrder(trace[..|trace| - 1]);
      match trace[|trace| - 1]
      case Discover(n) => before + [n]
      case _ => before
  }

  /** The stack of the search: nodes with the next successor to look at. */
  datatype Stack = Empty | Push(node: nat, next: nat, below: Stack)

  function Nodes(stack: Stack): Chain {
    match stack
    case Empty => Nil
    case Push(n, _, below) => Link(n, Nodes(below))
  }

  /** `post`: the finished nodes in order, `rank` their places in it; `path`: for each discovered node the
      nodes on the stack when it was discovered, itself first. */
  datatype Search = Search(trace: seq<Event>, stack: Stack, post: seq<nat>, rank: map<nat, nat>,
                           path: map<nat, Chain>)

  predicate White(s: Search, n: nat) { n !in s.path }
  predicate Grey(s: Search, n: nat) { n in s.path && n !in s.rank }
  predicate Black(s: Search, n: nat) { n in s.rank }

  // ----- steps -----

  /** The top node has a successor left to look at. */
  ghost predicate Looking(g: Graph, s: Search) {
    s.stack.Push? && s.stack.node < |g| && s.stack.next < |g[s.stack.node]|
  }

  ghost function Target(g: Graph, s: Search): nat
    requires Looking(g, s)
  {
    g[s.stack.node][s.stack.next]
  }

  function Start(entry: nat): Search {
    Search([Discover(entry)], Push(entry, 0, Empty), [], map[], map[entry := Link(entry, Nil)])
  }

  function Advanced(stack: Stack): Stack
    requires stack.Push?
  {
    stack.(next := stack.next + 1)
  }

  ghost function LookBlack(s: Search): Search
    requires s.stack.Push?
  {
    s.(stack := Advanced(s.stack))
  }

  ghost function LookGrey(g: Graph, s: Search): Search
    requires Looking(g, s)
  {
    s.(stack := Advanced(s.stack), trace := s.trace + [BackEdge(s.stack.node, s.stack.next, Target(g, s))])
  }

  ghost function Descend(g: Graph, s: Search): Search
    requires Looking(g, s)
  {
    var t := Target(g, s);
    s.(stack := Push(t, 0, Advanced(s.stack)), trace := s.trace + [Discover(t)],
       path := s.path[t := Link(t, Nodes(s.stack))])
  }

  ghost function Leave(s: Search): Search
    requires s.stack.Push?
  {
    var n := s.stack.node;
    s.(stack := s.stack.below, trace := s.trace + [Finish(n)], post := s.post + [n], rank := s.rank[n := |s.post|])
  }

  // ----- what every step keeps -----

  /** The open nodes of the events are the stack, which holds the grey nodes, each once. */
  ghost predicate StackInv(s: Search) {
    && Play(s.trace) == Some(Nodes(s.stack)) && FinishOrder(s.trace) == s.post && NoDup(Nodes(s.stack))
    && (forall n :: n in Elems(Nodes(s.stack)) <==> Grey(s, n))
  }

  /** The node `m` on the way to `n` is finished no earlier than `n`. */
  ghost predicate Encloses(s: Search, m: nat, n: nat) {
    m in s.path && (m in s.rank ==> n in s.rank && s.rank[n] <= s.rank[m])
  }

  /** The chain leads back from its first node to the entry, edge by edge. */
  ghost predicate Spine(g: Graph, entry: nat, c: Chain) {
    c.Link? && c.node < |g| &&
    if c.outer.Nil? then c.node == entry
    else Spine(g, entry, c.outer) && c.node in g[c.outer.node]
  }

  ghost predicate PathInv(g: Graph, entry: nat, s: Search) {
    && (forall n :: n in s.path ==> Spine(g, entry, s.path[n]) && s.path[n].node == n)
    && (forall n, m :: n in s.path && m in Elems(s.path[n]) ==> Encloses(s, m, n))
  }

  ghost predicate RankInv(s: Search) {
    && (forall n :: n in s.rank ==> n in s.path && s.rank[n] < |s.post| && s.post[s.rank[n]] == n)
    && (forall i :: 0 <= i < |s.post| ==> s.post[i] in s.rank && s.rank[s.post[i]] == i)
  }

  /** A node is discovered once when it leaves white and finished once when it turns black. */
  ghost predicate CountInv(s: Search) {
    && (forall n :: multiset(s.trace)[Discover(n)] == if White(s, n) then 0 else 1)
    && (forall n :: multiset(s.trace)[Finish(n)] == if Black(s, n) then 1 else 0)
  }

  /** How often the edge has been reported. */
  ghost function Reports(g: Graph, s: Search, n: nat, j: nat): nat
    requires n < |g| && j < |g[n]|
  {
    multiset(s.trace)[BackEdge(n, j, g[n][j])]
  }

  ghost predicate WhiteEdge(g: Graph, s: Search, n: nat, j: nat) {
    n < |g| && j < |g[n]| && White(s, n) ==> Reports(g, s, n, j) == 0
  }

  /** An edge of a finished node: reported once, and then its target encloses the node; or not at all, and
      then its target was finished before the node. */
  ghost predicate BlackEdge(g: Graph, s: Search, n: nat, j: nat) {
    n < |g| && j < |g[n]| && Black(s, n) ==>
      var t := g[n][j];
      && t in s.path
      && (Reports(g, s, n, j) == 1 ==> n in s.path && t in Elems(s.path[n]))
      && (Reports(g, s, n, j) != 1 ==> Reports(g, s, n, j) == 0 && t in s.rank && s.rank[t] < s.rank[n])
  }

  /** An edge of the top node of `stack`, which is the stack from some frame down; `above` is the node of
      the next frame up. Not looked at, or reported as leading to an enclosing node, or leading to a
      finished node or to the next node up. */
  ghost predicate FrameEdge(g: Graph, s: Search, stack: Stack, above: Option<nat>, j: nat)
    requires stack.Push? && stack.node < |g|
  {
    j < |g[stack.node]| ==>
      var c, t := Reports(g, s, stack.node, j), g[stack.node][j];
      if j >= stack.next then c == 0
      else
        && t in s.path
        && (c == 1 ==> t in Elems(Nodes(stack)))
        && (c != 1 ==> c == 0 && (t in s.rank || above == Some(t)))
  }

  ghost predicate FrameOk(g: Graph, s: Search, stack: Stack, above: Option<nat>)
    requires stack.Push?
  {
    && stack.node < |g| && stack.next <= |g[stack.node]|
    && stack.node in s.path && s.path[stack.node] == Nodes(stack)
    && (forall j :: FrameEdge(g, s, stack, above, j))
  }

  ghost predicate FramesOk(g: Graph, s: Search, stack: Stack, above: Option<nat>) {
    stack.Push? ==> FrameOk(g, s, stack, above) && FramesOk(g, s, stack.below, Some(stack.node))
  }

  ghost predicate EdgeInv(g: Graph, s: Search) {
    && (forall n, j :: WhiteEdge(g, s, n, j))
    && (forall n, j :: BlackEdge(g, s, n, j))
    && (forall u: nat, j: nat, t: nat :: BackEdge(u, j, t) in s.trace ==> u < |g| && j < |g[u]| && t == g[u][j])
  }

  /** A node of `order` after the first is a successor of an earlier one. */
  ghost predicate FromEarlier(g: Graph, order: seq<nat>, i: nat)
    requires i < |order|
  {
    exists k :: 0 <= k < i && order[k] < |g| && order[i] in g[order[k]]
  }

  ghost predicate GrowsFrom(g: Graph, entry: nat, order: seq<nat>) {
    order != [] && order[0] == entry && forall i :: 0 < i < |order| ==> FromEarlier(g, order, i)
  }

  ghost predicate OrderInv(g: Graph, entry: nat, s: Search) {
    && GrowsFrom(g, entry, DiscoverOrder(s.trace))
    && (forall n :: n in s.path <==> n in DiscoverOrder(s.trace))
    && (forall n :: multiset(DiscoverOrder(s.trace))[n] <= 1)
  }

  ghost predicate Inv(g: Graph, entry: nat, s: Search) {
    && StackInv(s) && FramesOk(g, s, s.stack, None)
    && PathInv(g, entry, s) && RankInv(s) && CountInv(s) && EdgeInv(g, s) && OrderInv(g, entry, s)
  }

  lemma PlayLast(trace: seq<Event>, e: Event)
    ensures (trace + [e])[..|trace|] == trace
    ensures multiset(trace + [e]) == multiset(trace) + multiset{e}
  {
  }

  /** What the frames say carries over to a later state that reports nothing for their nodes. */
  lemma {:induction false} FramesStay(g: Graph, s: Search, s': Search, stack: Stack, above: Option<nat>)
    requires FramesOk(g, s, stack, above)
    requires forall n :: n in s.path ==> n in s'.path && s'.path[n] == s.path[n]
    requires forall n :: n in s.rank ==> n in s'.rank
    requires forall n, j :: n in Elems(Nodes(stack)) && 0 <= n < |g| && 0 <= j < |g[n]| ==>
        Reports(g, s', n, j) == Reports(g, s, n, j)
    ensures FramesOk(g, s', stack, above)
  {
    if stack.Push? {
      forall j: nat ensures FrameEdge(g, s', stack, above, j) {
        assert FrameEdge(g, s, stack, above, j);
      }
      FramesStay(g, s, s', stack.below, Some(stack.node));
    }
  }

  lemma StartKeeps(g: Graph, entry: nat)
    requires entry < |g|
    ensures Inv(g, entry, Start(entry))
  {
    var s := Start(entry);
    assert s.trace[..0] == [];
    assert Play(s.trace[..0]) == Some(Nil) && FinishOrder(s.trace[..0]) == [] && DiscoverOrder(s.trace[..0]) == [];
  }

  // ----- looking at a finished node -----

  lemma LookBlackKeeps(g: Graph, entry: nat, s: Search)
    requires Inv(g, entry, s) && Looking(g, s) && Black(s, Target(g, s))
    ensures Inv(g, entry, LookBlack(s))
  {
    var s' := LookBlack(s);
    forall j: nat ensures FrameEdge(g, s', s'.stack, None, j) {
      assert FrameEdge(g, s, s.stack, None, j);
    }
    FramesStay(g, s, s', s.stack.below, Some(s.stack.node));
    forall n: nat, j: nat ensures WhiteEdge(g, s', n, j) && BlackEdge(g, s', n, j) {
      assert WhiteEdge(g, s, n, j) && BlackEdge(g, s, n, j);
    }
    forall n, m | n in s'.path && m in Elems(s'.path[n]) ensures Encloses(s', m, n) {
      assert Encloses(s, m, n);
    }
  }

  // ----- looking at an open node -----

  lemma ReportCounts(g: Graph, s: Search, n: nat, j: nat)
    requires Looking(g, s) && n < |g| && j < |g[n]|
    ensures Reports(g, LookGrey(g, s), n, j)
         == Reports(g, s, n, j) + if n == s.stack.node && j == s.stack.next then 1 else 0
  {
    PlayLast(s.trace, BackEdge(s.stack.node, s.stack.next, Target(g, s)));
  }

  lemma LookGreyKeepsFrames(g: Graph, s: Search)
    requires Looking(g, s) && FramesOk(g, s, s.stack, None) && NoDup(Nodes(s.stack))
    requires Target(g, s) in Elems(Nodes(s.stack)) && Target(g, s) in s.path
    ensures FramesOk(g, LookGrey(g, s), LookGrey(g, s).stack, None)
  {
    var s' := LookGrey(g, s);
    forall j: nat ensures FrameEdge(g, s', s'.stack, None, j) {
      assert FrameEdge(g, s, s.stack, None, j);
      if j < |g[s.stack.node]| {
        ReportCounts(g, s, s.stack.node, j);
      }
    }
    forall n, j | n in Elems(Nodes(s.stack.below)) && 0 <= n < |g| && 0 <= j < |g[n]|
      ensures Reports(g, s', n, j) == Reports(g, s, n, j)
    {
      ReportCounts(g, s, n, j);
    }
    FramesStay(g, s, s', s.stack.below, Some(s.stack.node));
  }

  lemma LookGreyKeepsEdges(g: Graph, s: Search)
    requires Looking(g, s) && EdgeInv(g, s) && Grey(s, s.stack.node)
    ensures EdgeInv(g, LookGrey(g, s))
  {
    var s' := LookGrey(g, s);
    forall n: nat, j: nat ensures WhiteEdge(g, s', n, j) && BlackEdge(g, s', n, j) {
      assert WhiteEdge(g, s, n, j) && BlackEdge(g, s, n, j);
      if n < |g| && j < |g[n]| {
        ReportCounts(g, s, n, j);
      }
    }
  }

  lemma LookGreyKeeps(g: Graph, entry: nat, s: Search)
    requires Inv(g, entry, s) && Looking(g, s) && Grey(s, Target(g, s))
    ensures Inv(g, entry, LookGrey(g, s))
  {
    var s' := LookGrey(g, s);
    PlayLast(s.trace, BackEdge(s.stack.node, s.stack.next, Target(g, s)));
    LookGreyKeepsFrames(g, s);
    LookGreyKeepsEdges(g, s);
    forall n, m | n in s'.path && m in Elems(s'.path[n]) ensures Encloses(s', m, n) {
      assert Encloses(s, m, n);
    }
  }

  // ----- finishing a node -----

  /** The way to a node on the stack stays on the stack. */
  lemma {:induction false} PathsInside(g: Graph, s: Search, stack: Stack, above: Option<nat>, n: nat)
    requires FramesOk(g, s, stack, above) && n in Elems(Nodes(stack))
    ensures n in s.path && Elems(s.path[n]) <= Elems(Nodes(stack))
  {
    if n != stack.node {
      PathsInside(g, s, stack.below, Some(stack.node), n);
    }
  }

  lemma LeaveKeepsPaths(g: Graph, entry: nat, s: Search)
    requires StackInv(s) && FramesOk(g, s, s.stack, None) && PathInv(g, entry, s) && RankInv(s) && s.stack.Push?
    ensures PathInv(g, entry, Leave(s))
  {
    var s', u := Leave(s), s.stack.node;
    forall n, m | n in s'.path && m in Elems(s'.path[n]) ensures Encloses(s', m, n) {
      assert Encloses(s, m, n);
      if Grey(s', n) {
        assert Grey(s, n) && n in Elems(Nodes(s.stack));
        PathsInside(g, s, s.stack.below, Some(u), n);
      }
    }
  }

  lemma LeaveKeepsFrames(g: Graph, s: Search)
    requires FramesOk(g, s, s.stack, None) && s.stack.Push?
    ensures FramesOk(g, Leave(s), Leave(s).stack, None)
  {
    var s', u, below := Leave(s), s.stack.node, s.stack.below;
    PlayLast(s.trace, Finish(u));
    FramesStay(g, s, s', below, Some(u));
    if below.Push? {
      forall j: nat ensures FrameEdge(g, s', below, None, j) {
        assert FrameEdge(g, s', below, Some(u), j);
      }
    }
  }

  lemma LeaveKeepsEdges(g: Graph, s: Search)
    requires EdgeInv(g, s) && StackInv(s) && RankInv(s) && s.stack.Push?
    requires FrameOk(g, s, s.stack, None) && s.stack.next == |g[s.stack.node]|
    ensures EdgeInv(g, Leave(s))
  {
    PlayLast(s.trace, Finish(s.stack.node));
    assert s.stack.node in Elems(Nodes(s.stack)) && Grey(s, s.stack.node);
    forall n: nat, j: nat ensures WhiteEdge(g, Leave(s), n, j) && BlackEdge(g, Leave(s), n, j) {
      assert WhiteEdge(g, s, n, j) && BlackEdge(g, s, n, j) && FrameEdge(g, s, s.stack, None, j);
      if n < |g| && j < |g[n]| && n == s.stack.node {
        assert g[n][j] in Elems(Nodes(s.stack)) ==> Grey(s, g[n][j]);
      }
    }
  }

  lemma LeaveKeeps(g: Graph, entry: nat, s: Search)
    requires Inv(g, entry, s) && s.stack.Push? && s.stack.next == |g[s.stack.node]|
    ensures Inv(g, entry, Leave(s))
  {
    PlayLast(s.trace, Finish(s.stack.node));
    assert s.stack.node in Elems(Nodes(s.stack)) && Grey(s, s.stack.node);
    LeaveKeepsPaths(g, entry, s);
    LeaveKeepsFrames(g, s);
    LeaveKeepsEdges(g, s);
  }

  // ----- discovering a node -----

  lemma DescendKeepsPaths(g: Graph, entry: nat, s: Search)
    requires ValidGraph(g) && StackInv(s) && FramesOk(g, s, s.stack, None) && PathInv(g, entry, s) && RankInv(s)
    requires Looking(g, s) && White(s, Target(g, s))
    ensures PathInv(g, entry, Descend(g, s))
  {
    var s', t := Descend(g, s), Target(g, s);
    forall n, m | n in s'.path && m in Elems(s'.path[n]) ensures Encloses(s', m, n) {
      if n != t {
        assert Encloses(s, m, n);
      } else if m != t {
        assert m in Elems(Nodes(s.stack)) && Grey(s, m);
      }
    }
  }

  lemma DescendKeepsFrames(g: Graph, s: Search)
    requires Looking(g, s) && White(s, Target(g, s)) && FramesOk(g, s, s.stack, None) && EdgeInv(g, s)
    requires Target(g, s) < |g|
    ensures FramesOk(g, Descend(g, s), Descend(g, s).stack, None)
  {
    var s', t := Descend(g, s), Target(g, s);
    PlayLast(s.trace, Discover(t));
    forall j: nat ensures FrameEdge(g, s', s'.stack, None, j) {
      assert WhiteEdge(g, s, t, j);
    }
    forall j: nat ensures FrameEdge(g, s', Advanced(s.stack), Some(t), j) {
      assert FrameEdge(g, s, s.stack, None, j);
    }
    FramesStay(g, s, s', s.stack.below, Some(s.stack.node));
  }

  lemma DescendKeepsEdges(g: Graph, s: Search)
    requires EdgeInv(g, s) && RankInv(s) && Looking(g, s) && White(s, Target(g, s))
    ensures EdgeInv(g, Descend(g, s))
  {
    var s', t := Descend(g, s), Target(g, s);
    PlayLast(s.trace, Discover(t));
    forall n: nat, j: nat ensures WhiteEdge(g, s', n, j) && BlackEdge(g, s', n, j) {
      assert WhiteEdge(g, s, n, j) && BlackEdge(g, s, n, j);
    }
  }

  lemma DescendKeepsOrder(g: Graph, entry: nat, s: Search)
    requires OrderInv(g, entry, s) && Looking(g, s) && White(s, Target(g, s)) && s.stack.node in s.path
    ensures OrderInv(g, entry, Descend(g, s))
  {
    var t, order := Target(g, s), DiscoverOrder(s.trace);
    PlayLast(s.trace, Discover(t));
    var order' := order + [t];
    assert DiscoverOrder(Descend(g, s).trace) == order';
    var k :| 0 <= k < |order| && order[k] == s.stack.node;
    forall i | 0 < i < |order'| ensures FromEarlier(g, order', i) {
      if i < |order| {
        assert FromEarlier(g, order, i);
        var j :| 0 <= j < i && order[j] < |g| && order[i] in g[order[j]];
        assert order'[j] == order[j];
      } else {
        assert order'[k] == s.stack.node;
      }
    }
  }

  lemma DescendKeeps(g: Graph, entry: nat, s: Search)
    requires ValidGraph(g) && Inv(g, entry, s) && Looking(g, s) && White(s, Target(g, s))
    ensures Inv(g, entry, Descend(g, s))
  {
    PlayLast(s.trace, Discover(Target(g, s)));
    DescendKeepsPaths(g, entry, s);
    DescendKeepsFrames(g, s);
    DescendKeepsEdges(g, s);
    DescendKeepsOrder(g, entry, s);
  }

  // ----- what the search does next is determined -----

  /** The stack and the events so far. */
  datatype Moment = Moment(stack: Stack, trace: seq<Event>)

  /** One look of the search at the next edge of the top node. */
  function Next(g: Graph, m: Moment): Moment {
    match m.stack
    case Empty => m
    case Push(n, j, below) =>
      if n >= |g| || j >= |g[n]| then Moment(below, m.trace + [Finish(n)])
      else
        var t, onwards := g[n][j], Push(n, j + 1, below);
        if t in Elems(Nodes(m.stack)) then Moment(onwards, m.trace + [BackEdge(n, j, t)])
        else if t in DiscoverOrder(m.trace) then Moment(onwards, m.trace)
        else Moment(Push(t, 0, onwards), m.trace + [Discover(t)])
  }

  /** The search after `k` looks. */
  function After(g: Graph, entry: nat, k: nat): Moment {
    if k == 0 then Moment(Push(entry, 0, Empty), [Discover(entry)]) else Next(g, After(g, entry, k - 1))
  }

  /** A search that has ended stays as it is. */
  lemma {:induction false} EndStays(g: Graph, entry: nat, k: nat, j: nat)
    requires k <= j && After(g, entry, k).stack.Empty?
    ensures After(g, entry, j) == After(g, entry, k)
  {
    if k < j {
      EndStays(g, entry, k, j - 1);
    }
  }

  /** The open nodes when `n` was discovered, itself first. */
  ghost function OpenPath(trace: seq<Event>, n: nat): Chain {
    if trace == [] then Nil
    else if trace[|trace| - 1] == Discover(n) && Play(trace).Some? then Play(trace).value
    else OpenPath(trace[..|trace| - 1], n)
  }

  ghost predicate PathsTraced(s: Search) {
    forall n :: n in s.path ==> s.path[n] == OpenPath(s.trace, n)
  }

  /** The search after `k` looks, with all that is known about it. */
  ghost function NextState(g: Graph, s: Search): Search {
    if s.stack.Empty? then s
    else if !Looking(g, s) then Leave(s)
    else if White(s, Target(g, s)) then Descend(g, s)
    else if Grey(s, Target(g, s)) then LookGrey(g, s)
    else LookBlack(s)
  }

  ghost function StateAfter(g: Graph, entry: nat, k: nat): Search {
    if k == 0 then Start(entry) else NextState(g, StateAfter(g, entry, k - 1))
  }

  lemma NextKeeps(g: Graph, entry: nat, s: Search)
    requires ValidGraph(g) && Inv(g, entry, s)
    ensures Inv(g, entry, NextState(g, s))
  {
    if s.stack.Push? {
      if !Looking(g, s) {
        LeaveKeeps(g, entry, s);
      } else if White(s, Target(g, s)) {
        DescendKeeps(g, entry, s);
      } else if Grey(s, Target(g, s)) {
        LookGreyKeeps(g, entry, s);
      } else {
        LookBlackKeeps(g, entry, s);
      }
    }
  }

  lemma NextTraces(g: Graph, s: Search)
    requires PathsTraced(s) && StackInv(s)
             && (s.stack.Push? ==> s.stack.node < |g| && s.stack.next <= |g[s.stack.node]|)
    ensures PathsTraced(NextState(g, s))
  {
    if s.stack.Push? {
      if !Looking(g, s) {
        PlayLast(s.trace, Finish(s.stack.node));
      } else if White(s, Target(g, s)) {
        PlayLast(s.trace, Discover(Target(g, s)));
      } else if Grey(s, Target(g, s)) {
        PlayLast(s.trace, BackEdge(s.stack.node, s.stack.next, Target(g, s)));
      }
    }
  }

  lemma NextIsMachine(g: Graph, entry: nat, s: Search)
    requires StackInv(s) && OrderInv(g, entry, s) && RankInv(s)
    requires s.stack.Push? ==> s.stack.node < |g| && s.stack.next <= |g[s.stack.node]|
    ensures Next(g, Moment(s.stack, s.trace)) == Moment(NextState(g, s).stack, NextState(g, s).trace)
  {
    if s.stack.Push? && Looking(g, s) {
      assert Target(g, s) in Elems(Nodes(s.stack)) <==> Grey(s, Target(g, s));
    }
  }

  /** Every state of the search keeps the invariant, and its stack and events are those of the machine. */
  lemma {:induction false} StateKeeps(g: Graph, entry: nat, k: nat)
    requires ValidGraph(g) && entry < |g|
    ensures Inv(g, entry, StateAfter(g, entry, k)) && PathsTraced(StateAfter(g, entry, k))
    ensures After(g, entry, k) == Moment(StateAfter(g, entry, k).stack, StateAfter(g, entry, k).trace)
  {
    if k == 0 {
      StartKeeps(g, entry);
    } else {
      StateKeeps(g, entry, k - 1);
      NextKeeps(g, entry, StateAfter(g, entry, k - 1));
      NextTraces(g, StateAfter(g, entry, k - 1));
      NextIsMachine(g, entry, StateAfter(g, entry, k - 1));
    }
  }

  /** What the loop of the search needs to know of its state. */
  lemma StateFacts(g: Graph, entry: nat, k: nat)
    requires ValidGraph(g) && entry < |g|
    ensures var s := StateAfter(g, entry, k);
            && (s.stack.Push? ==> s.stack.node in s.path && s.stack.node < |g| && s.stack.next <= |g[s.stack.node]|)
            && (forall n :: n in s.rank ==> n in s.path) && (forall n :: n in s.path ==> n < |g|)
  {
    StateKeeps(g, entry, k);
  }

  lemma {:induction false} EndStateStays(g: Graph, entry: nat, k: nat, j: nat)
    requires k <= j && StateAfter(g, entry, k).stack.Empty?
    ensures StateAfter(g, entry, j) == StateAfter(g, entry, k)
  {
    if k < j {
      EndStateStays(g, entry, k, j - 1);
    }
  }
}
