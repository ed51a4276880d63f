/** When the linear order puts every block before its successors. */
module BlockOrders {
  // Only the edges back of the search may lead to earlier places. Between the loops this always holds, as the order
  // follows the search there. Inside a loop the order is that in which the search backwards met the blocks.

  import opened Wrappers
  import opened FiniteSets
  import opened Graphs
  import opened DfsState
  import opened Dfs
  import opened Ir
  import opened LivenessProofs
  import opened LoopSpec
  import opened LoopTrace
  import opened LoopFilling
  import opened LoopOwnership
  import opened LoopSearches
  import opened LoopAnalyzers
  import opened LinearOrders
  import opened BlockLayouts

  /** An edge leads from one part to the other. */
  ghost predicate Leads(g: Graph, l: Loops, from: Item, to: Item) {
    exists a, b :: HasEdge(g, a, b) && Holds(g, l, from, a) && Holds(g, l, to, b)
  }

  ghost predicate HasEdge(g: Graph, a: nat, b: nat) {
    a < |g| && b < |g| && b in g[a]
  }

  /** No edge leads from a part to one that is listed later: the order of the loop reads the list backwards. */
  ghost predicate PartsOrdered(g: Graph, l: Loops, parts: seq<Item>) {
    forall i, j :: 0 <= i < j < |parts| && parts[i] != parts[j] ==> !Leads(g, l, parts[i], parts[j])
  }

  /** The search backwards from the latches meets what a part of the loop leads to before the part itself. */
  ghost predicate SuccessorsFirst(g: Graph, preds: Graph, l: Loops, h: nat)
    requires h in l.latches
  {
    forall met :: IsMeetOrder(preds, h, l.latches[h], met) ==> PartsOrdered(g, l, PartsFrom(g, l, h, met))
  }

  ghost function PartsFrom(g: Graph, l: Loops, h: nat, met: seq<nat>): seq<Item>
    requires h in l.latches
  {
    NodesOf(l.latches[h]) + PartsMet(g, l, h, met)
  }

  /** The bodies as the analyzer leaves them. */
  ghost predicate BodiesMet(g: Graph, preds: Graph, l: Loops, body: map<nat, seq<Item>>) {
    forall h :: h in l.latches ==> IsBodyMet(g, preds, l, body, h)
  }

  ghost predicate IsBodyMet(g: Graph, preds: Graph, l: Loops, body: map<nat, seq<Item>>, h: nat)
    requires h in l.latches
  {
    h in body && exists met :: IsMeetOrder(preds, h, l.latches[h], met) && body[h] == PartsFrom(g, l, h, met)
  }

  lemma BodiesAreMet(g: Graph, entry: nat, preds: Graph, found: Record, body: map<nat, seq<Item>>)
    requires Natural(g, entry, LoopsOf(found)) && Bodies(g, preds, found, |found.heads|, body)
    ensures BodiesMet(g, preds, LoopsOf(found), body)
  {
    var l := LoopsOf(found);
    forall h | h in l.latches ensures IsBodyMet(g, preds, l, body, h) {
      var k := Place(l.heads, h);
      assert BodyIn(g, preds, found, body, found.heads[k], k < |found.heads|);
    }
  }

  lemma MetInOrder(g: Graph, preds: Graph, l: Loops, body: map<nat, seq<Item>>, h: nat)
    requires BodiesMet(g, preds, l, body) && h in l.latches
    ensures h in body && (SuccessorsFirst(g, preds, l, h) <==> PartsOrdered(g, l, body[h]))
  {
    assert IsBodyMet(g, preds, l, body, h);
    var met :| IsMeetOrder(preds, h, l.latches[h], met) && body[h] == PartsFrom(g, l, h, met);
    forall other | IsMeetOrder(preds, h, l.latches[h], other) ensures other == met {
      OneMeetOrder(preds, h, l.latches[h], other, met);
    }
  }

  // ----- one block before another -----

  ghost predicate Before(order: seq<nat>, a: nat, b: nat) {
    exists i, j :: 0 <= i < j < |order| && order[i] == a && order[j] == b
  }

  lemma BeforeIs(order: seq<nat>, p: nat, q: nat)
    requires NoRepeat(order) && p < |order| && q < |order| && Before(order, order[p], order[q])
    ensures p < q
  {
    var i, j :| 0 <= i < j < |order| && order[i] == order[p] && order[j] == order[q];
    OnePlace(order, i, p);
    OnePlace(order, j, q);
  }

  lemma BeforeInPiece(whole: seq<nat>, part: seq<nat>, a: nat, b: nat)
    requires Piece(whole, part) && Before(part, a, b)
    ensures Before(whole, a, b)
  {
    var front, back :| whole == front + part + back;
    var i, j :| 0 <= i < j < |part| && part[i] == a && part[j] == b;
    assert whole[|front| + i] == a && whole[|front| + j] == b;
  }

  lemma BeforeJoined(front: seq<nat>, back: seq<nat>, a: nat, b: nat)
    requires a in front && b in back
    ensures Before(front + back, a, b)
  {
    var i, j :| 0 <= i < |front| && 0 <= j < |back| && front[i] == a && back[j] == b;
    assert (front + back)[i] == a && (front + back)[|front| + j] == b;
  }

  /** A part that is listed later stands before. */
  lemma {:induction false} PartsBefore(heads: seq<nat>, body: map<nat, seq<Item>>, parts: seq<Item>, i: nat, x: nat,
                                       y: nat, a: nat, b: nat)
    requires Nests(heads, body) && Inside(heads, parts, i) && x < y < |parts| && parts[x] in parts && parts[y] in parts
    requires a in PartOrder(heads, body, parts[y], i) && b in PartOrder(heads, body, parts[x], i)
    ensures Before(PartsOrder(heads, body, parts, i), a, b)
  {
    var front, last := parts[..|parts| - 1], parts[|parts| - 1];
    var rest := PartsOrder(heads, body, front, i);
    if y == |parts| - 1 {
      PartsPiece(heads, body, front, i, x);
      var u, v :| rest == u + PartOrder(heads, body, parts[x], i) + v;
      BeforeJoined(PartOrder(heads, body, last, i), rest, a, b);
    } else {
      assert front[x] == parts[x] && front[y] == parts[y];
      PartsBefore(heads, body, front, i, x, y, a, b);
      PieceItself(rest);
      PieceOfJoin(PartOrder(heads, body, last, i), rest, rest);
      BeforeInPiece(PartsOrder(heads, body, parts, i), rest, a, b);
    }
  }

  /** ... in the order of the loop. */
  lemma ListedBefore(g: Graph, entry: nat, l: Loops, body: map<nat, seq<Item>>, h: nat, x: nat, y: nat, a: nat, b: nat)
    requires AllFilled(g, entry, l, body) && Nests(l.heads, body) && h in l.latches && x < y < |body[h]|
    requires Holds(g, l, body[h][y], a) && Holds(g, l, body[h][x], b)
    ensures Before(LoopOrder(l.heads, body, h), a, b)
  {
    var parts, i := body[h], Place(l.heads, h);
    assert parts[x] in parts && parts[y] in parts;
    PartsAre(g, entry, l, body, h, parts[x]);
    PartsAre(g, entry, l, body, h, parts[y]);
    PartOrderHas(g, entry, l, body, h, parts[x], b);
    PartOrderHas(g, entry, l, body, h, parts[y], a);
    PartsBefore(l.heads, body, parts, i, x, y, a, b);
    var whole := PartsOrder(l.heads, body, parts, i);
    PieceItself(whole);
    PieceOfJoin([h], whole, whole);
    BeforeInPiece([h] + whole, whole, a, b);
  }

  // ----- inside a loop -----

  /** The edge is no back edge of the search. */
  ghost predicate GoesOn(g: Graph, l: Loops, a: nat, b: nat) {
    HasEdge(g, a, b) && !(b in l.latches && a in l.latches[b])
  }

  lemma MemberIsDominated(g: Graph, entry: nat, l: Loops, h: nat, n: nat)
    requires Natural(g, entry, l) && Member(g, l, h, n)
    ensures Dominates(g, entry, h, n)
  {
    if n != h {
      HeaderDominates(g, entry, l, h, n);
    } else {
      forall path | EntryPath(g, entry, path, n) ensures h in path {
        assert path[|path| - 1] == h;
      }
    }
  }

  lemma SomeListed(g: Graph, entry: nat, l: Loops, body: map<nat, seq<Item>>, h: nat, n: nat) returns (k: nat)
    requires AllFilled(g, entry, l, body) && Nests(l.heads, body) && h in l.latches && InLoop(g, l, h, n)
    ensures k < |body[h]| && Holds(g, l, body[h][k], n)
    ensures body[h][k].Inner? ==> PartOf(g, l, h, body[h][k])
  {
    var part := SomePartHolds(g, entry, l, h, n);
    PartsAre(g, entry, l, body, h, part);
    k :| 0 <= k < |body[h]| && body[h][k] == part;
  }

  /** The filled loops of a finished search. */
  ghost predicate Searched(g: Graph, entry: nat, s: Search, l: Loops, body: map<nat, seq<Item>>) {
    && AllFilled(g, entry, l, body) && Nests(l.heads, body)
    && Finished(g, entry, s) && SourcesAre(s.trace, l.latches)
  }

  ghost predicate AllOrdered(g: Graph, l: Loops, body: map<nat, seq<Item>>) {
    forall h :: h in l.latches ==> h in body && PartsOrdered(g, l, body[h])
  }

  /** An edge to a block that dominates its source is one of the search back. */
  lemma GoesNotUp(g: Graph, entry: nat, s: Search, l: Loops, body: map<nat, seq<Item>>, h: nat, a: nat)
    requires Searched(g, entry, s, l, body) && Reachable(g, entry, a) && Member(g, l, h, a)
    ensures !GoesOn(g, l, a, h)
  {
    if HasEdge(g, a, h) {
      MemberIsDominated(g, entry, l, h, a);
      EdgeToDominator(g, entry, s, l, a, h);
    }
  }

  lemma HeaderStandsFirst(g: Graph, entry: nat, l: Loops, body: map<nat, seq<Item>>, h: nat, b: nat)
    requires AllFilled(g, entry, l, body) && Nests(l.heads, body) && h in l.latches && InLoop(g, l, h, b)
    ensures Before(LoopOrder(l.heads, body, h), h, b)
  {
    var order := LoopOrder(l.heads, body, h);
    LoopOrderHas(g, entry, l, body, h, b);
    HeaderDominates(g, entry, l, h, b);
    assert [h] + order[1..] == order;
    BeforeJoined([h], order[1..], h, b);
  }

  lemma BetweenParts(g: Graph, entry: nat, l: Loops, body: map<nat, seq<Item>>, h: nat, x: nat, y: nat, a: nat, b: nat)
    requires AllFilled(g, entry, l, body) && Nests(l.heads, body) && h in l.latches && PartsOrdered(g, l, body[h])
    requires x < |body[h]| && y < |body[h]| && body[h][x] != body[h][y] && HasEdge(g, a, b)
    requires Holds(g, l, body[h][y], a) && Holds(g, l, body[h][x], b)
    ensures Before(LoopOrder(l.heads, body, h), a, b)
  {
    assert Leads(g, l, body[h][y], body[h][x]);
    ListedBefore(g, entry, l, body, h, x, y, a, b);
  }

  /** If no part leads to one that is listed later, an edge inside a loop leads onwards, or is one of the search
      back. */
  lemma {:induction false} OnwardsInLoop(g: Graph, entry: nat, s: Search, l: Loops, body: map<nat, seq<Item>>, h: nat,
                                         a: nat, b: nat)
    requires Searched(g, entry, s, l, body) && AllOrdered(g, l, body) && h in l.latches && Reachable(g, entry, a)
    requires Member(g, l, h, a) && Member(g, l, h, b) && GoesOn(g, l, a, b)
    ensures Before(LoopOrder(l.heads, body, h), a, b)
    decreases Place(l.heads, h)
  {
    if b == h {
      GoesNotUp(g, entry, s, l, body, h, a);
      assert false;
    } else if a == h {
      HeaderStandsFirst(g, entry, l, body, h, b);
    } else {
      var y := SomeListed(g, entry, l, body, h, a);
      var x := SomeListed(g, entry, l, body, h, b);
      if body[h][x] == body[h][y] {
        OnwardsInPart(g, entry, s, l, body, h, body[h][x], a, b);
      } else {
        BetweenParts(g, entry, l, body, h, x, y, a, b);
      }
    }
  }

  lemma {:induction false} OnwardsInPart(g: Graph, entry: nat, s: Search, l: Loops, body: map<nat, seq<Item>>, h: nat,
                                         part: Item, a: nat, b: nat)
    requires Searched(g, entry, s, l, body) && AllOrdered(g, l, body) && h in l.latches && Reachable(g, entry, a)
    requires Holds(g, l, part, a) && Holds(g, l, part, b) && GoesOn(g, l, a, b)
    requires part.Inner? ==> PartOf(g, l, h, part)
    ensures Before(LoopOrder(l.heads, body, h), a, b)
    decreases Place(l.heads, h), 0
  {
    match part
    case Node(_) =>
      GoesNotUp(g, entry, s, l, body, a, a);
      assert false;
    case Inner(x) =>
      OwnerHas(g, l, h, x);
      InnerBefore(g, entry, l, h, x);
      OnwardsInLoop(g, entry, s, l, body, x, a, b);
      InnerPiece(g, entry, l, body, h, x);
      BeforeInPiece(LoopOrder(l.heads, body, h), LoopOrder(l.heads, body, x), a, b);
  }

  // ----- between the loops -----

  lemma NotReported(g: Graph, s: Search, l: Loops, a: nat, b: nat)
    requires SourcesAre(s.trace, l.latches) && GoesOn(g, l, a, b)
    ensures ForwardEdge(g, s, a, b)
  {
    var j: nat :| j < |g[a]| && g[a][j] == b;
    if BackEdge(a, j, b) in s.trace {
      ReportedIsSource(s.trace, a, j, b);
    }
    assert Reports(g, s, a, j) == 0;
  }

  lemma IsCovered(g: Graph, entry: nat, l: Loops, rpo: seq<nat>, n: nat) returns (k: nat)
    requires DominatorsFirst(g, entry, rpo) && Reachable(g, entry, n)
    ensures k < |rpo| && rpo[k] == n && Covered(g, l, rpo, |rpo|, n) && Unit(g, l, rpo, |rpo|, n) <= k
  {
    k :| 0 <= k < |rpo| && rpo[k] == n;
    assert Member(g, l, rpo[k], n);
    UnitIs(g, l, rpo, |rpo|, n);
  }

  /** Such an edge leads to no earlier unit of the order. */
  lemma UnitsGoOn(g: Graph, entry: nat, preds: Graph, s: Search, l: Loops, rpo: seq<nat>, a: nat, b: nat)
    requires PredLists(g, preds) && IsReversePostOrder(g, entry, rpo, s) && SourcesAre(s.trace, l.latches)
    requires Reachable(g, entry, a) && Reachable(g, entry, b) && GoesOn(g, l, a, b)
    ensures Covered(g, l, rpo, |rpo|, a) && Covered(g, l, rpo, |rpo|, b)
    ensures Unit(g, l, rpo, |rpo|, a) <= Unit(g, l, rpo, |rpo|, b)
  {
    ReversePostOrderServes(g, entry, rpo, s);
    var i := IsCovered(g, entry, l, rpo, a);
    var j := IsCovered(g, entry, l, rpo, b);
    UnitIs(g, l, rpo, |rpo|, a);
    UnitIs(g, l, rpo, |rpo|, b);
    var k := Unit(g, l, rpo, |rpo|, b);
    if rpo[k] == b {
      NotReported(g, s, l, a, b);
      ReversePostOrderFacts(g, entry, rpo, s, i, k);
    } else if a != rpo[k] {
      assert a in preds[b];
      PredInLoop(g, preds, l, rpo[k], b, a);
      assert Member(g, l, rpo[k], a);
    }
  }

  lemma UnitIsLoop(g: Graph, entry: nat, s: Search, l: Loops, body: map<nat, seq<Item>>, order: seq<nat>, h: nat,
                   p: nat, q: nat)
    requires Searched(g, entry, s, l, body) && AllOrdered(g, l, body) && Ordering(g, entry, l, body, order)
    requires p < |order| && q < |order| && Member(g, l, h, order[p]) && Member(g, l, h, order[q])
    requires GoesOn(g, l, order[p], order[q])
    ensures p < q
  {
    assert order[p] in order;
    if h in l.latches {
      OnwardsInLoop(g, entry, s, l, body, h, order[p], order[q]);
      BeforeInPiece(order, LoopOrder(l.heads, body, h), order[p], order[q]);
      BeforeIs(order, p, q);
    } else {
      GoesNotUp(g, entry, s, l, body, h, order[p]);
    }
  }

  /** The order of blocks, with the search and the loops it comes from. */
  ghost predicate OrderOf(g: Graph, entry: nat, preds: Graph, s: Search, l: Loops, body: map<nat, seq<Item>>,
                          order: seq<nat>) {
    && PredLists(g, preds) && Searched(g, entry, s, l, body) && BodiesMet(g, preds, l, body)
    && Ordering(g, entry, l, body, order) && FollowsSearch(g, entry, l, order)
  }

  lemma Onwards(g: Graph, entry: nat, preds: Graph, s: Search, l: Loops, body: map<nat, seq<Item>>, order: seq<nat>,
                p: nat, q: nat)
    requires OrderOf(g, entry, preds, s, l, body, order) && AllOrdered(g, l, body)
    requires p < |order| && q < |order| && GoesOn(g, l, order[p], order[q])
    ensures p < q
  {
    var rpo, t :| IsReversePostOrder(g, entry, rpo, t) && InUnits(g, l, rpo, |rpo|, order);
    OneSearch(g, entry, s, t);
    assert order[p] in order && order[q] in order;
    UnitsGoOn(g, entry, preds, s, l, rpo, order[p], order[q]);
    if q <= p {
      UnitIs(g, l, rpo, |rpo|, order[p]);
      UnitIs(g, l, rpo, |rpo|, order[q]);
      var k := Unit(g, l, rpo, |rpo|, order[p]);
      assert k == Unit(g, l, rpo, |rpo|, order[q]);
      UnitIsLoop(g, entry, s, l, body, order, rpo[k], p, q);
    }
  }

  lemma OrderedGoesOn(g: Graph, entry: nat, preds: Graph, s: Search, l: Loops, body: map<nat, seq<Item>>,
                      order: seq<nat>, code: Code)
    requires OrderOf(g, entry, preds, s, l, body, order) && AllOrdered(g, l, body) && LaidOut(g, l, order, code)
    ensures OnlyBackEdgesGoBack(l, order, code)
  {
    forall p, j | 0 <= p < |code| && 0 <= j < |code[p].succs| && code[p].succs[j] <= p
      ensures IsBackEdge(l, order, p, code[p].succs[j])
    {
      var q := code[p].succs[j];
      EdgeInGraph(g, l, order, code, p, q);
      if GoesOn(g, l, order[p], order[q]) {
        Onwards(g, entry, preds, s, l, body, order, p, q);
      }
    }
  }

  // ----- and the other way -----

  /** A part that leads to one listed later puts an edge into the order that goes back and is none of the search. */
  lemma LeadsBack(g: Graph, entry: nat, l: Loops, body: map<nat, seq<Item>>, order: seq<nat>, code: Code, h: nat,
                  i: nat, j: nat)
    requires Ordering(g, entry, l, body, order) && LaidOut(g, l, order, code) && OnlyBackEdgesGoBack(l, order, code)
    requires h in l.latches && h in body && i < j < |body[h]| && body[h][i] != body[h][j]
    ensures !Leads(g, l, body[h][i], body[h][j])
  {
    if Leads(g, l, body[h][i], body[h][j]) {
      var a, b :| HasEdge(g, a, b) && Holds(g, l, body[h][i], a) && Holds(g, l, body[h][j], b);
      ListedBefore(g, entry, l, body, h, i, j, b, a);
      BeforeInPiece(order, LoopOrder(l.heads, body, h), b, a);
      EdgeIsBack(g, l, order, code, a, b);
      HoldsLatch(g, entry, l, body, order, h, body[h][i], body[h][j], a, b);
    }
  }

  lemma EdgeIsBack(g: Graph, l: Loops, order: seq<nat>, code: Code, a: nat, b: nat)
    requires LaidOut(g, l, order, code) && NoRepeat(order) && OnlyBackEdgesGoBack(l, order, code)
    requires HasEdge(g, a, b) && Before(order, b, a)
    ensures b in l.latches && a in l.latches[b]
  {
    var q, p :| 0 <= q < p < |order| && order[q] == b && order[p] == a;
    var w := EdgeInCode(g, l, order, code, p, b);
    OnePlace(order, w, q);
    var j :| 0 <= j < |code[p].succs| && code[p].succs[j] == w;
    assert IsBackEdge(l, order, p, code[p].succs[j]);
  }

  /** The source of an edge back lies in the part that its header lies in. */
  lemma HoldsLatch(g: Graph, entry: nat, l: Loops, body: map<nat, seq<Item>>, order: seq<nat>, h: nat, from: Item,
                   to: Item, a: nat, b: nat)
    requires Ordering(g, entry, l, body, order) && h in l.latches && h in body && from in body[h] && to in body[h]
    requires Holds(g, l, from, a) && Holds(g, l, to, b) && b in l.latches && a in l.latches[b]
    ensures from == to
  {
    PartsAre(g, entry, l, body, h, from);
    PartsAre(g, entry, l, body, h, to);
    assert LatchesOwn(g, l);
    LatchInLoop(g, entry, l, b, a);
    var x := to.header;
    if x != b {
      InnerInside(g, entry, l, b, x, a);
    }
    PartsDisjoint(g, entry, l, h, from, to, a);
  }

  // ----- what liveness assumes -----

  lemma AllOrderedIff(g: Graph, preds: Graph, l: Loops, body: map<nat, seq<Item>>)
    requires BodiesMet(g, preds, l, body)
    ensures AllOrdered(g, l, body) <==> AllSuccessorsFirst(g, preds, l)
  {
    forall h | h in l.latches
      ensures h in body && (SuccessorsFirst(g, preds, l, h) <==> PartsOrdered(g, l, body[h]))
    {
      MetInOrder(g, preds, l, body, h);
    }
  }

  ghost predicate AllSuccessorsFirst(g: Graph, preds: Graph, l: Loops) {
    forall h :: h in l.latches ==> SuccessorsFirst(g, preds, l, h)
  }

  lemma OnlyBackMeansOrdered(g: Graph, entry: nat, preds: Graph, l: Loops, body: map<nat, seq<Item>>, order: seq<nat>,
                             code: Code)
    requires Ordering(g, entry, l, body, order) && LaidOut(g, l, order, code) && BodiesMet(g, preds, l, body)
    requires OnlyBackEdgesGoBack(l, order, code)
    ensures AllOrdered(g, l, body)
  {
    forall h | h in l.latches ensures h in body && PartsOrdered(g, l, body[h]) {
      assert IsBodyMet(g, preds, l, body, h);
      forall i, j | 0 <= i < j < |body[h]| && body[h][i] != body[h][j] ensures !Leads(g, l, body[h][i], body[h][j]) {
        LeadsBack(g, entry, l, body, order, code, h, i, j);
      }
    }
  }

  /** The code in the linear order is as liveness wants it exactly if, in every loop, the search backwards from the
      latches meets what a part leads to before the part. */
  lemma LoopsContiguousIff(g: Graph, entry: nat, preds: Graph, s: Search, l: Loops, body: map<nat, seq<Item>>,
                           order: seq<nat>, code: Code)
    requires OrderOf(g, entry, preds, s, l, body, order) && LaidOut(g, l, order, code)
    ensures LoopsContiguous(code) <==> AllSuccessorsFirst(g, preds, l)
  {
    LayoutServesLiveness(g, entry, s, l, body, order, code);
    AllOrderedIff(g, preds, l, body);
    if AllOrdered(g, l, body) {
      OrderedGoesOn(g, entry, preds, s, l, body, order, code);
    }
    if OnlyBackEdgesGoBack(l, order, code) {
      OnlyBackMeansOrdered(g, entry, preds, l, body, order, code);
    }
  }

  /** What the analyzer and the builder of the order leave is such an order, if no block stands twice. */
  lemma AnalysisGivesOrder(g: Graph, entry: nat, preds: Graph, s: Search, found: Record, toLoop: map<nat, nat>,
                           outer: map<nat, nat>, body: map<nat, seq<Item>>, order: seq<nat>)
    requires Analyzed(g, entry, preds, found, toLoop, outer, body) && Nests(found.heads, body)
    requires Finished(g, entry, s) && Recorded(found, s.trace)
    requires IsLinearOrder(g, entry, LoopsOf(found), body, order) && FollowsSearch(g, entry, LoopsOf(found), order)
    requires EachOnce(g, LoopsOf(found))
    ensures OrderOf(g, entry, preds, s, LoopsOf(found), body, order)
  {
    FilledFrom(g, entry, preds, found, body);
    BodiesAreMet(g, entry, preds, found, body);
  }

  // ----- loops without inner ones -----

  ghost predicate BlocksOrdered(g: Graph, list: seq<nat>) {
    forall i, j :: 0 <= i < j < |list| && list[i] != list[j] ==> !HasEdge(g, list[i], list[j])
  }

  lemma {:induction false} NodesAt(srcs: seq<nat>)
    ensures |NodesOf(srcs)| == |srcs| && forall i :: 0 <= i < |srcs| ==> NodesOf(srcs)[i] == Node(srcs[i])
  {
    if srcs != [] {
      NodesAt(srcs[..|srcs| - 1]);
    }
  }

  lemma {:induction false} OwnPartsMet(g: Graph, l: Loops, h: nat, met: seq<nat>)
    requires forall n :: n in met ==> Owner(g, l, n) == Some(h)
    ensures PartsMet(g, l, h, met) == NodesOf(met)
  {
    if met != [] {
      var front := met[..|met| - 1];
      assert met == front + [met[|met| - 1]];
      OwnPartsMet(g, l, h, front);
    }
  }

  lemma BlocksAreParts(g: Graph, l: Loops, list: seq<nat>, parts: seq<Item>)
    requires |parts| == |list| && forall i :: 0 <= i < |list| ==> parts[i] == Node(list[i])
    ensures PartsOrdered(g, l, parts) <==> BlocksOrdered(g, list)
  {
    forall i, j | 0 <= i < |list| && 0 <= j < |list|
      ensures Leads(g, l, parts[i], parts[j]) <==> HasEdge(g, list[i], list[j])
    {
      if HasEdge(g, list[i], list[j]) {
        assert Holds(g, l, parts[i], list[i]) && Holds(g, l, parts[j], list[j]);
      }
    }
  }

  /** In a loop that owns all its blocks, every block is to be met after those it leads to. */
  lemma PlainLoopIff(g: Graph, preds: Graph, l: Loops, h: nat, met: seq<nat>)
    requires h in l.latches && IsMeetOrder(preds, h, l.latches[h], met)
    requires forall n :: n in met ==> Owner(g, l, n) == Some(h)
    ensures SuccessorsFirst(g, preds, l, h) <==> BlocksOrdered(g, l.latches[h] + met)
  {
    var list, parts := l.latches[h] + met, PartsFrom(g, l, h, met);
    OwnPartsMet(g, l, h, met);
    NodesAt(l.latches[h]);
    NodesAt(met);
    BlocksAreParts(g, l, list, parts);
    forall other | IsMeetOrder(preds, h, l.latches[h], other) ensures other == met {
      OneMeetOrder(preds, h, l.latches[h], other, met);
    }
  }
}
