/** The linear order of the blocks that liveness works on. */
module LinearOrders {
  // It is a reverse post-order in which every loop stands in one piece.

  import opened Wrappers
  import opened FiniteSets
  import opened Graphs
  import opened DfsState
  import opened Dfs
  import opened Dominators
  import opened LoopSpec
  import opened LoopFilling
  import opened LoopOwnership
  import opened LoopAnalyzers
  import opened LoopSearches

  // ----- the order of one loop -----

  function Place(heads: seq<nat>, h: nat): (i: nat)
    requires h in heads
    ensures i < |heads| && heads[i] == h
  {
    if heads[|heads| - 1] == h then |heads| - 1 else Place(heads[..|heads| - 1], h)
  }

  /** The loops among the parts have headers that stand before place `i`. */
  ghost predicate Inside(heads: seq<nat>, parts: seq<Item>, i: nat) {
    forall x: nat :: Inner(x) in parts ==> x in heads && Place(heads, x) < i
  }

  /** Bodies only hold loops whose headers stand before their own. */
  ghost predicate Nests(heads: seq<nat>, body: map<nat, seq<Item>>) {
    forall h :: h in heads ==> h in body && Inside(heads, body[h], Place(heads, h))
  }

  /** The header, then the parts of the body backwards. */
  ghost function LoopOrder(heads: seq<nat>, body: map<nat, seq<Item>>, h: nat): seq<nat>
    requires Nests(heads, body) && h in heads
    decreases Place(heads, h), 2, 0
  {
    [h] + PartsOrder(heads, body, body[h], Place(heads, h))
  }

  ghost function PartsOrder(heads: seq<nat>, body: map<nat, seq<Item>>, parts: seq<Item>, i: nat): seq<nat>
    requires Nests(heads, body) && Inside(heads, parts, i)
    decreases i, 1, |parts|
  {
    if parts == [] then []
    else PartOrder(heads, body, parts[|parts| - 1], i) + PartsOrder(heads, body, parts[..|parts| - 1], i)
  }

  ghost function PartOrder(heads: seq<nat>, body: map<nat, seq<Item>>, part: Item, i: nat): seq<nat>
    requires Nests(heads, body) && (part.Inner? ==> part.header in heads && Place(heads, part.header) < i)
    decreases i, 0, 0
  {
    match part
    case Node(n) => [n]
    case Inner(x) => LoopOrder(heads, body, x)
  }

  method GetLinearOrder(ghost heads: seq<nat>, body: map<nat, seq<Item>>, h: nat) returns (res: seq<nat>)
    requires Nests(heads, body) && h in heads
    ensures res == LoopOrder(heads, body, h)
    decreases Place(heads, h)
  {
    res := [h];
    var k := |body[h]|;
    assert body[h][..k] == body[h];
    while k > 0
      invariant 0 <= k <= |body[h]|
      invariant Inside(heads, body[h][..k], Place(heads, h))
      invariant res + PartsOrder(heads, body, body[h][..k], Place(heads, h)) == LoopOrder(heads, body, h)
    {
      assert body[h][..k][..k - 1] == body[h][..k - 1];
      assert body[h][k - 1] in body[h];
      k := k - 1;
      match body[h][k]
      case Node(n) =>
        res := res + [n];
      case Inner(x) =>
        var inner := GetLinearOrder(heads, body, x);
        res := res + inner;
    }
  }

  /** The block at the front of the body, or the last one of the loop there: the last block of the loop. */
  method GetLastBB(ghost heads: seq<nat>, body: map<nat, seq<Item>>, h: nat) returns (last: nat)
    requires Nests(heads, body) && h in heads && forall k :: k in heads ==> body[k] != []
    ensures last == LoopOrder(heads, body, h)[|LoopOrder(heads, body, h)| - 1]
    decreases Place(heads, h)
  {
    FrontIsLast(heads, body, body[h], Place(heads, h));
    assert body[h][0] in body[h];
    match body[h][0]
    case Node(n) =>
      last := n;
    case Inner(x) =>
      last := GetLastBB(heads, body, x);
  }

  lemma {:induction false} FrontIsLast(heads: seq<nat>, body: map<nat, seq<Item>>, parts: seq<Item>, i: nat)
    requires Nests(heads, body) && Inside(heads, parts, i) && parts != []
    ensures parts[0] in parts
    ensures var front, whole := PartOrder(heads, body, parts[0], i), PartsOrder(heads, body, parts, i);
            front != [] && whole != [] && whole[|whole| - 1] == front[|front| - 1]
  {
    if |parts| > 1 {
      FrontIsLast(heads, body, parts[..|parts| - 1], i);
    }
  }

  lemma {:induction false} PartsJoin(heads: seq<nat>, body: map<nat, seq<Item>>, a: seq<Item>, b: seq<Item>, i: nat)
    requires Nests(heads, body) && Inside(heads, a, i) && Inside(heads, b, i)
    ensures Inside(heads, a + b, i)
    ensures PartsOrder(heads, body, a + b, i) == PartsOrder(heads, body, b, i) + PartsOrder(heads, body, a, i)
  {
    if b == [] {
      assert a + b == a;
    } else {
      PartsJoin(heads, body, a, b[..|b| - 1], i);
      assert (a + b)[..|a + b| - 1] == a + b[..|b| - 1];
    }
  }

  /** The latches in front of a body come last, in reverse. */
  lemma {:induction false} LatchParts(heads: seq<nat>, body: map<nat, seq<Item>>, srcs: seq<nat>, i: nat)
    requires Nests(heads, body)
    ensures Inside(heads, NodesOf(srcs), i)
    ensures forall n :: n in PartsOrder(heads, body, NodesOf(srcs), i) <==> n in srcs
    ensures NoRepeat(PartsOrder(heads, body, NodesOf(srcs), i)) <==> NoRepeat(srcs)
  {
    if srcs != [] {
      var front, last := srcs[..|srcs| - 1], srcs[|srcs| - 1];
      LatchParts(heads, body, front, i);
      assert srcs == front + [last];
      assert NodesOf(srcs)[..|NodesOf(srcs)| - 1] == NodesOf(front);
      NoRepeatJoin([last], PartsOrder(heads, body, NodesOf(front), i));
      NoRepeatJoin(front, [last]);
    }
  }

  // ----- which blocks are the parts of a loop -----

  /** `n` belongs to the loop of `h`, its header included. */
  ghost predicate Member(g: Graph, l: Loops, h: nat, n: nat) {
    n == h || InLoop(g, l, h, n)
  }

  ghost predicate Holds(g: Graph, l: Loops, part: Item, n: nat) {
    match part
    case Node(m) => n == m
    case Inner(x) => Member(g, l, x, n)
  }

  /** `part` is a block that the loop of `h` owns, or a loop right inside it. */
  ghost predicate PartOf(g: Graph, l: Loops, h: nat, part: Item) {
    match part
    case Node(n) => n !in l.latches && FirstLoop(g, l, |l.heads|, n) == Some(h)
    case Inner(x) => x in l.latches && FirstLoop(g, l, |l.heads|, x) == Some(h)
  }

  /** ... or a source of a back edge, whoever owns it: the parts that the body lists. */
  ghost predicate InBody(g: Graph, l: Loops, h: nat, part: Item)
    requires h in l.latches
  {
    PartOf(g, l, h, part) || (part.Node? && part.node in l.latches[h])
  }

  /** The latches, then the other parts, each once. */
  ghost predicate IsBody(g: Graph, l: Loops, h: nat, body: map<nat, seq<Item>>, items: seq<Item>) {
    && h in l.latches && h in body && body[h] == NodesOf(l.latches[h]) + items && BodyOk(g, l, h, items)
  }

  /** A regular graph with all loops filled. */
  ghost predicate AllFilled(g: Graph, entry: nat, l: Loops, body: map<nat, seq<Item>>) {
    && Natural(g, entry, l)
    && (forall h, n :: InLoop(g, l, h, n) ==> Reachable(g, entry, n))
    && (forall h :: h in l.latches ==> l.latches[h] != [] && exists items :: IsBody(g, l, h, body, items))
  }

  lemma {:induction false} InNodesOf(srcs: seq<nat>, item: Item)
    ensures item in NodesOf(srcs) <==> item.Node? && item.node in srcs
  {
    if srcs != [] {
      InNodesOf(srcs[..|srcs| - 1], item);
      assert srcs == srcs[..|srcs| - 1] + [srcs[|srcs| - 1]];
    }
  }

  lemma PartsAre(g: Graph, entry: nat, l: Loops, body: map<nat, seq<Item>>, h: nat, part: Item)
    requires AllFilled(g, entry, l, body) && h in l.latches
    ensures h in body && (part in body[h] <==> InBody(g, l, h, part))
  {
    var items :| IsBody(g, l, h, body, items);
    InNodesOf(l.latches[h], part);
  }

  lemma PlaceIs(g: Graph, entry: nat, l: Loops, i: nat)
    requires Natural(g, entry, l) && i < |l.heads|
    ensures Place(l.heads, l.heads[i]) == i
  {
    var k := Place(l.heads, l.heads[i]);
    if k != i {
      HeadsDiffer(g, entry, l, i, k);
    }
  }

  /** The header of an inner loop stands before that of the outer one. */
  lemma InnerBefore(g: Graph, entry: nat, l: Loops, h: nat, x: nat)
    requires Natural(g, entry, l) && h in l.latches && x in l.latches && InLoop(g, l, h, x)
    ensures Place(l.heads, x) < Place(l.heads, h)
  {
    HeaderDominates(g, entry, l, h, x);
  }

  lemma OwnerHas(g: Graph, l: Loops, h: nat, n: nat)
    requires FirstLoop(g, l, |l.heads|, n) == Some(h)
    ensures h in l.heads && InLoop(g, l, h, n)
  {
    FirstLoopIs(g, l, |l.heads|, n);
  }

  /** No loop whose header stands before that of the owner has the block. */
  lemma OwnerIsFirst(g: Graph, entry: nat, l: Loops, h: nat, x: nat, n: nat)
    requires Natural(g, entry, l) && FirstLoop(g, l, |l.heads|, n) == Some(h) && x in l.latches && InLoop(g, l, x, n)
    ensures h in l.heads && Place(l.heads, h) <= Place(l.heads, x)
  {
    FirstLoopIs(g, l, |l.heads|, n);
    var k :| 0 <= k < |l.heads| && l.heads[k] == h && forall j :: 0 <= j < k ==> !InLoop(g, l, l.heads[j], n);
    PlaceIs(g, entry, l, k);
  }

  lemma BodiesNest(g: Graph, entry: nat, l: Loops, body: map<nat, seq<Item>>)
    requires AllFilled(g, entry, l, body)
    ensures Nests(l.heads, body)
  {
    forall h | h in l.heads ensures h in body && Inside(l.heads, body[h], Place(l.heads, h)) {
      PartsAre(g, entry, l, body, h, Node(0));
      forall x: nat | Inner(x) in body[h] ensures x in l.heads && Place(l.heads, x) < Place(l.heads, h) {
        PartsAre(g, entry, l, body, h, Inner(x));
        OwnerHas(g, l, h, x);
        InnerBefore(g, entry, l, h, x);
      }
    }
  }

  /** An inner header lies in a loop right inside. */
  lemma {:induction false} Under(g: Graph, entry: nat, l: Loops, h: nat, y: nat) returns (x: nat)
    requires Natural(g, entry, l) && (forall h, n :: InLoop(g, l, h, n) ==> Reachable(g, entry, n))
    requires h in l.latches && y in l.latches && InLoop(g, l, h, y)
    ensures PartOf(g, l, h, Inner(x)) && Member(g, l, x, y)
    decreases |l.heads| - Place(l.heads, y)
  {
    FirstLoopIs(g, l, |l.heads|, y);
    assert InLoop(g, l, l.heads[Place(l.heads, h)], y);
    var k := FirstLoop(g, l, |l.heads|, y).value;
    if k == h {
      x := y;
    } else {
      OwnerHas(g, l, k, y);
      OwnerIsFirst(g, entry, l, k, h, y);
      InnerBefore(g, entry, l, k, y);
      assert Ordered(g, entry, l.heads[Place(l.heads, k)], l.heads[Place(l.heads, h)]);
      Nested(g, entry, l, k, h, y);
      x := Under(g, entry, l, h, k);
      if x != k {
        InnerInside(g, entry, l, k, x, y);
      }
    }
  }

  /** Every block of a loop is in a part of it, and the parts hold nothing else. */
  lemma SomePartHolds(g: Graph, entry: nat, l: Loops, h: nat, n: nat) returns (part: Item)
    requires Natural(g, entry, l) && (forall h, n :: InLoop(g, l, h, n) ==> Reachable(g, entry, n))
    requires h in l.latches && InLoop(g, l, h, n)
    ensures PartOf(g, l, h, part) && Holds(g, l, part, n)
  {
    if n in l.latches {
      var x := Under(g, entry, l, h, n);
      part := Inner(x);
    } else {
      FirstLoopIs(g, l, |l.heads|, n);
      assert InLoop(g, l, l.heads[Place(l.heads, h)], n);
      var k := FirstLoop(g, l, |l.heads|, n).value;
      if k == h {
        part := Node(n);
      } else {
        OwnerHas(g, l, k, n);
        OwnerIsFirst(g, entry, l, k, h, n);
        assert Ordered(g, entry, l.heads[Place(l.heads, k)], l.heads[Place(l.heads, h)]);
        Nested(g, entry, l, k, h, n);
        var x := Under(g, entry, l, h, k);
        if x != k {
          InnerInside(g, entry, l, k, x, n);
        }
        part := Inner(x);
      }
    }
  }

  lemma HeldIsInLoop(g: Graph, entry: nat, l: Loops, h: nat, part: Item, n: nat)
    requires Natural(g, entry, l) && h in l.latches && InBody(g, l, h, part) && Holds(g, l, part, n)
    ensures InLoop(g, l, h, n)
  {
    match part
    case Node(m) =>
      if m in l.latches[h] {
        LatchInLoop(g, entry, l, h, m);
      } else {
        OwnerHas(g, l, h, m);
      }
    case Inner(x) =>
      OwnerHas(g, l, h, x);
      if n != x {
        InnerInside(g, entry, l, x, h, n);
      }
  }

  /** No block is in two parts. */
  lemma PartsDisjoint(g: Graph, entry: nat, l: Loops, h: nat, a: Item, b: Item, n: nat)
    requires Natural(g, entry, l) && (forall h, n :: InLoop(g, l, h, n) ==> Reachable(g, entry, n))
    requires PartOf(g, l, h, a) && PartOf(g, l, h, b) && Holds(g, l, a, n) && Holds(g, l, b, n)
    ensures a == b
  {
    match (a, b)
    case (Node(_), Node(_)) =>
    case (Node(m), Inner(x)) => NotDeeper(g, entry, l, h, x, m);
    case (Inner(x), Node(m)) => NotDeeper(g, entry, l, h, x, m);
    case (Inner(x), Inner(y)) =>
      if x != y {
        NotDeeper(g, entry, l, h, x, y);
        NotDeeper(g, entry, l, h, y, x);
        var i, j := Place(l.heads, x), Place(l.heads, y);
        if i < j {
          assert Ordered(g, entry, l.heads[i], l.heads[j]);
          Nested(g, entry, l, x, y, n);
        } else {
          assert Ordered(g, entry, l.heads[j], l.heads[i]);
          Nested(g, entry, l, y, x, n);
        }
      }
  }

  /** What lies right inside `h` does not lie in a loop right inside `h`. */
  lemma NotDeeper(g: Graph, entry: nat, l: Loops, h: nat, x: nat, n: nat)
    requires Natural(g, entry, l) && PartOf(g, l, h, Inner(x)) && FirstLoop(g, l, |l.heads|, n) == Some(h)
    ensures !InLoop(g, l, x, n)
  {
    OwnerHas(g, l, h, x);
    InnerBefore(g, entry, l, h, x);
    if InLoop(g, l, x, n) {
      OwnerIsFirst(g, entry, l, h, x, n);
    }
  }

  // ----- what the order of a loop is -----

  ghost predicate PartsOf(g: Graph, l: Loops, h: nat, parts: seq<Item>)
    requires h in l.latches
  {
    forall part :: part in parts ==> InBody(g, l, h, part)
  }

  ghost predicate OwnParts(g: Graph, l: Loops, h: nat, parts: seq<Item>) {
    forall part :: part in parts ==> PartOf(g, l, h, part)
  }

  ghost predicate SomeHolds(g: Graph, l: Loops, parts: seq<Item>, n: nat) {
    parts != [] && (Holds(g, l, parts[|parts| - 1], n) || SomeHolds(g, l, parts[..|parts| - 1], n))
  }

  lemma {:induction false} SomeHoldsIf(g: Graph, l: Loops, parts: seq<Item>, part: Item, n: nat)
    requires part in parts && Holds(g, l, part, n)
    ensures SomeHolds(g, l, parts, n)
  {
    if part != parts[|parts| - 1] {
      SomeHoldsIf(g, l, parts[..|parts| - 1], part, n);
    }
  }

  lemma {:induction false} HoldingPart(g: Graph, l: Loops, parts: seq<Item>, n: nat) returns (part: Item)
    requires SomeHolds(g, l, parts, n)
    ensures part in parts && Holds(g, l, part, n)
  {
    part := parts[|parts| - 1];
    if !Holds(g, l, part, n) {
      part := HoldingPart(g, l, parts[..|parts| - 1], n);
    }
  }

  lemma PartsInside(g: Graph, entry: nat, l: Loops, h: nat, parts: seq<Item>)
    requires Natural(g, entry, l) && h in l.latches && PartsOf(g, l, h, parts)
    ensures Inside(l.heads, parts, Place(l.heads, h))
  {
    forall x: nat | Inner(x) in parts ensures x in l.heads && Place(l.heads, x) < Place(l.heads, h) {
      assert InBody(g, l, h, Inner(x));
      OwnerHas(g, l, h, x);
      InnerBefore(g, entry, l, h, x);
    }
  }

  /** The order of a loop has the header and the blocks of the loop, and nothing else. */
  lemma {:induction false} LoopOrderHas(g: Graph, entry: nat, l: Loops, body: map<nat, seq<Item>>, h: nat, n: nat)
    requires AllFilled(g, entry, l, body) && Nests(l.heads, body) && h in l.latches
    ensures n in LoopOrder(l.heads, body, h) <==> Member(g, l, h, n)
    decreases Place(l.heads, h), 2, 0
  {
    forall part ensures part in body[h] <==> InBody(g, l, h, part) {
      PartsAre(g, entry, l, body, h, part);
    }
    PartsOrderHas(g, entry, l, body, h, body[h], n);
    if InLoop(g, l, h, n) {
      var part := SomePartHolds(g, entry, l, h, n);
      SomeHoldsIf(g, l, body[h], part, n);
    }
    if SomeHolds(g, l, body[h], n) {
      var part := HoldingPart(g, l, body[h], n);
      HeldIsInLoop(g, entry, l, h, part, n);
    }
  }

  lemma {:induction false} PartsOrderHas(g: Graph, entry: nat, l: Loops, body: map<nat, seq<Item>>, h: nat,
                                         parts: seq<Item>, n: nat)
    requires AllFilled(g, entry, l, body) && Nests(l.heads, body) && h in l.latches && PartsOf(g, l, h, parts)
    ensures Inside(l.heads, parts, Place(l.heads, h))
    ensures n in PartsOrder(l.heads, body, parts, Place(l.heads, h)) <==> SomeHolds(g, l, parts, n)
    decreases Place(l.heads, h), 1, |parts|
  {
    PartsInside(g, entry, l, h, parts);
    if parts != [] {
      var front, last := parts[..|parts| - 1], parts[|parts| - 1];
      assert last in parts;
      PartsOrderHas(g, entry, l, body, h, front, n);
      PartOrderHas(g, entry, l, body, h, last, n);
    }
  }

  lemma PartOrderHas(g: Graph, entry: nat, l: Loops, body: map<nat, seq<Item>>, h: nat, part: Item, n: nat)
    requires AllFilled(g, entry, l, body) && Nests(l.heads, body) && h in l.latches && InBody(g, l, h, part)
    requires part.Inner? ==> Place(l.heads, part.header) < Place(l.heads, h)
    ensures n in PartOrder(l.heads, body, part, Place(l.heads, h)) <==> Holds(g, l, part, n)
    decreases Place(l.heads, h), 0, 0
  {
    if part.Inner? {
      LoopOrderHas(g, entry, l, body, part.header, n);
    }
  }

  ghost predicate NoEdgeTwice(l: Loops) {
    forall h :: h in l.latches ==> NoRepeat(l.latches[h])
  }

  /** No back edge is doubled, and every source of one belongs to the loop it leads to. */
  ghost predicate EachOnce(g: Graph, l: Loops) {
    NoEdgeTwice(l) && LatchesOwn(g, l)
  }

  /** The header stands in no part of its loop. */
  lemma HeaderApart(g: Graph, entry: nat, l: Loops, body: map<nat, seq<Item>>, h: nat)
    requires AllFilled(g, entry, l, body) && Nests(l.heads, body) && h in l.latches
    ensures h !in PartsOrder(l.heads, body, body[h], Place(l.heads, h))
  {
    forall part ensures part in body[h] <==> InBody(g, l, h, part) {
      PartsAre(g, entry, l, body, h, part);
    }
    PartsOrderHas(g, entry, l, body, h, body[h], h);
    if SomeHolds(g, l, body[h], h) {
      var part := HoldingPart(g, l, body[h], h);
      HeldIsInLoop(g, entry, l, h, part, h);
    }
  }

  /** A latch stands in no part of its loop behind the latches. */
  lemma LatchApart(g: Graph, entry: nat, l: Loops, body: map<nat, seq<Item>>, h: nat, items: seq<Item>, u: nat)
    requires AllFilled(g, entry, l, body) && Nests(l.heads, body) && IsBody(g, l, h, body, items)
    requires u in l.latches[h] && OwnParts(g, l, h, items) && Inside(l.heads, items, Place(l.heads, h))
    requires PartOf(g, l, h, Node(u))
    ensures u !in PartsOrder(l.heads, body, items, Place(l.heads, h))
  {
    PartsOrderHas(g, entry, l, body, h, items, u);
    if SomeHolds(g, l, items, u) {
      var part := HoldingPart(g, l, items, u);
      PartsDisjoint(g, entry, l, h, part, Node(u), u);
    }
  }

  lemma ItemIs(g: Graph, l: Loops, body: map<nat, seq<Item>>, h: nat, items: seq<Item>, part: Item)
    requires IsBody(g, l, h, body, items)
    ensures part in items <==> PartOf(g, l, h, part) && !(part.Node? && part.node in l.latches[h])
  {
  }

  lemma ItemsAreParts(g: Graph, entry: nat, l: Loops, body: map<nat, seq<Item>>, h: nat, items: seq<Item>)
    requires AllFilled(g, entry, l, body) && IsBody(g, l, h, body, items)
    ensures OwnParts(g, l, h, items) && PartsOf(g, l, h, items) && Inside(l.heads, items, Place(l.heads, h))
  {
    forall part | part in items ensures PartOf(g, l, h, part) {
      ItemIs(g, l, body, h, items, part);
    }
    PartsInside(g, entry, l, h, items);
  }

  /** Then no block stands twice in the order of a loop. */
  lemma {:induction false} LoopOrderOnce(g: Graph, entry: nat, l: Loops, body: map<nat, seq<Item>>, h: nat)
    requires AllFilled(g, entry, l, body) && Nests(l.heads, body) && h in l.latches && EachOnce(g, l)
    ensures NoRepeat(LoopOrder(l.heads, body, h))
    decreases Place(l.heads, h), 1, 0
  {
    var i := Place(l.heads, h);
    var items :| IsBody(g, l, h, body, items);
    ItemsAreParts(g, entry, l, body, h, items);
    PartsOnce(g, entry, l, body, h, items);
    LatchParts(l.heads, body, l.latches[h], i);
    PartsJoin(l.heads, body, NodesOf(l.latches[h]), items, i);
    forall u | u in l.latches[h] ensures u !in PartsOrder(l.heads, body, items, i) {
      LatchApart(g, entry, l, body, h, items, u);
    }
    HeaderApart(g, entry, l, body, h);
    OnceTogether(h, PartsOrder(l.heads, body, items, i), PartsOrder(l.heads, body, NodesOf(l.latches[h]), i));
  }

  lemma OnceTogether(h: nat, a: seq<nat>, b: seq<nat>)
    requires NoRepeat(a) && NoRepeat(b) && (forall u :: u in b ==> u !in a) && h !in a + b
    ensures NoRepeat([h] + (a + b))
  {
    NoRepeatJoin(a, b);
    NoRepeatJoin([h], a + b);
  }

  lemma {:induction false} PartsOnce(g: Graph, entry: nat, l: Loops, body: map<nat, seq<Item>>, h: nat,
                                     parts: seq<Item>)
    requires AllFilled(g, entry, l, body) && Nests(l.heads, body) && h in l.latches && EachOnce(g, l)
    requires OwnParts(g, l, h, parts) && NoRepeat(parts)
    ensures Inside(l.heads, parts, Place(l.heads, h))
    ensures NoRepeat(PartsOrder(l.heads, body, parts, Place(l.heads, h)))
    decreases Place(l.heads, h), 0, |parts|
  {
    PartsInside(g, entry, l, h, parts);
    if parts != [] {
      var i, front, last := Place(l.heads, h), parts[..|parts| - 1], parts[|parts| - 1];
      PartsOnce(g, entry, l, body, h, front);
      if last.Inner? {
        LoopOrderOnce(g, entry, l, body, last.header);
      } else {
        assert NoRepeat([last.node]);
      }
      forall n | n in PartOrder(l.heads, body, last, i) ensures n !in PartsOrder(l.heads, body, front, i) {
        PartOrderHas(g, entry, l, body, h, last, n);
        PartsOrderHas(g, entry, l, body, h, front, n);
        if SomeHolds(g, l, front, n) {
          var part := HoldingPart(g, l, front, n);
          PartsDisjoint(g, entry, l, h, part, last, n);
        }
      }
      NoRepeatJoin(PartOrder(l.heads, body, last, i), PartsOrder(l.heads, body, front, i));
    }
  }

  // ----- one piece -----

  /** `part` stands in `whole` without gaps. */
  ghost predicate Piece(whole: seq<nat>, part: seq<nat>) {
    exists a, b :: whole == a + part + b
  }

  lemma PieceOfJoin(a: seq<nat>, b: seq<nat>, part: seq<nat>)
    requires Piece(a, part) || Piece(b, part)
    ensures Piece(a + b, part)
  {
    if Piece(a, part) {
      var x, y :| a == x + part + y;
      assert a + b == x + part + (y + b);
    } else {
      var x, y :| b == x + part + y;
      assert a + b == (a + x) + part + y;
    }
  }

  lemma PieceItself(a: seq<nat>)
    ensures Piece(a, a)
  {
    assert a == [] + a + [];
  }

  /** The order of a part is a piece of that of the list it stands in. */
  lemma {:induction false} PartsPiece(heads: seq<nat>, body: map<nat, seq<Item>>, parts: seq<Item>, i: nat, k: nat)
    requires Nests(heads, body) && Inside(heads, parts, i) && k < |parts|
    ensures parts[k] in parts
    ensures Piece(PartsOrder(heads, body, parts, i), PartOrder(heads, body, parts[k], i))
  {
    var front, last := parts[..|parts| - 1], parts[|parts| - 1];
    if k < |parts| - 1 {
      PartsPiece(heads, body, front, i, k);
    } else {
      PieceItself(PartOrder(heads, body, last, i));
    }
    PieceOfJoin(PartOrder(heads, body, last, i), PartsOrder(heads, body, front, i),
      PartOrder(heads, body, parts[k], i));
  }

  /** The order of an inner loop is a piece of that of the outer one. */
  lemma {:induction false} InnerPiece(g: Graph, entry: nat, l: Loops, body: map<nat, seq<Item>>, h: nat, x: nat)
    requires AllFilled(g, entry, l, body) && Nests(l.heads, body) && h in l.latches && x in l.latches
             && Member(g, l, h, x)
    ensures Piece(LoopOrder(l.heads, body, h), LoopOrder(l.heads, body, x))
    decreases Place(l.heads, h)
  {
    if x == h {
      PieceItself(LoopOrder(l.heads, body, h));
    } else {
      var part := SomePartHolds(g, entry, l, h, x);
      PartsAre(g, entry, l, body, h, part);
      var k :| 0 <= k < |body[h]| && body[h][k] == part;
      InnerPiece(g, entry, l, body, part.header, x);
      PartsPiece(l.heads, body, body[h], Place(l.heads, h), k);
      PieceInPiece(LoopOrder(l.heads, body, h), [h], PartsOrder(l.heads, body, body[h], Place(l.heads, h)),
                   LoopOrder(l.heads, body, part.header), LoopOrder(l.heads, body, x));
    }
  }

  lemma PieceInPiece(whole: seq<nat>, a: seq<nat>, b: seq<nat>, inner: seq<nat>, part: seq<nat>)
    requires whole == a + b && Piece(b, inner) && Piece(inner, part)
    ensures Piece(whole, part)
  {
    var x, y :| b == x + inner + y;
    var v, w :| inner == v + part + w;
    assert whole == (a + x + v) + part + (w + y);
  }

  /** The latches stand in the order of their loop as often as they are listed, and once more in an inner loop that
      owns them. */
  lemma RepeatedLatch(g: Graph, entry: nat, l: Loops, body: map<nat, seq<Item>>, h: nat, u: nat)
    requires AllFilled(g, entry, l, body) && Nests(l.heads, body) && h in l.latches
    requires NoRepeat(LoopOrder(l.heads, body, h))
    ensures NoRepeat(l.latches[h]) && (u in l.latches[h] ==> PartOf(g, l, h, Node(u)))
  {
    var i := Place(l.heads, h);
    var items :| IsBody(g, l, h, body, items);
    var latches := NodesOf(l.latches[h]);
    ItemsAreParts(g, entry, l, body, h, items);
    LatchParts(l.heads, body, l.latches[h], i);
    PartsJoin(l.heads, body, latches, items, i);
    NoRepeatJoin([h], PartsOrder(l.heads, body, body[h], i));
    NoRepeatJoin(PartsOrder(l.heads, body, items, i), PartsOrder(l.heads, body, latches, i));
    if u in l.latches[h] {
      OwnedElsewhere(g, entry, l, body, h, items, u);
    }
  }

  /** A latch that an inner loop owns stands in the order of the other parts, too. */
  lemma OwnedElsewhere(g: Graph, entry: nat, l: Loops, body: map<nat, seq<Item>>, h: nat, items: seq<Item>, u: nat)
    requires AllFilled(g, entry, l, body) && Nests(l.heads, body) && IsBody(g, l, h, body, items)
    requires PartsOf(g, l, h, items) && Inside(l.heads, items, Place(l.heads, h)) && u in l.latches[h]
    ensures !PartOf(g, l, h, Node(u)) ==> u in PartsOrder(l.heads, body, items, Place(l.heads, h))
  {
    if !PartOf(g, l, h, Node(u)) {
      LatchInLoop(g, entry, l, h, u);
      var part := SomePartHolds(g, entry, l, h, u);
      ItemIs(g, l, body, h, items, part);
      SomeHoldsIf(g, l, items, part, u);
      PartsOrderHas(g, entry, l, body, h, items, u);
    }
  }

  /** The last block is the first latch. */
  lemma LastIsLatch(g: Graph, entry: nat, l: Loops, body: map<nat, seq<Item>>, h: nat)
    requires AllFilled(g, entry, l, body) && Nests(l.heads, body) && h in l.latches
    ensures var order := LoopOrder(l.heads, body, h); order[0] == h && order[|order| - 1] == l.latches[h][0]
  {
    var items :| IsBody(g, l, h, body, items);
    assert NodesOf(l.latches[h]) != [];
    FrontIsLast(l.heads, body, body[h], Place(l.heads, h));
    FrontNode(l.latches[h]);
  }

  lemma {:induction false} FrontNode(srcs: seq<nat>)
    requires srcs != []
    ensures NodesOf(srcs) != [] && NodesOf(srcs)[0] == Node(srcs[0])
  {
    if |srcs| > 1 {
      FrontNode(srcs[..|srcs| - 1]);
    }
  }

  // ----- the order of the graph -----

  /** Every reachable block, a dominator before the blocks it dominates. */
  ghost predicate DominatorsFirst(g: Graph, entry: nat, rpo: seq<nat>) {
    && (forall n :: n in rpo <==> Reachable(g, entry, n))
    && (forall i, k :: 0 <= i < |rpo| && 0 <= k < |rpo| && rpo[i] == rpo[k] ==> i == k)
    && (forall i, k :: 0 <= i < |rpo| && 0 <= k < |rpo| && Dominates(g, entry, rpo[i], rpo[k]) ==> i <= k)
  }

  lemma ReversePostOrderServes(g: Graph, entry: nat, rpo: seq<nat>, s: Search)
    requires IsReversePostOrder(g, entry, rpo, s)
    ensures DominatorsFirst(g, entry, rpo)
  {
    forall i, k | 0 <= i < |rpo| && 0 <= k < |rpo|
      ensures (rpo[i] == rpo[k] ==> i == k) && (Dominates(g, entry, rpo[i], rpo[k]) ==> i <= k)
    {
      ReversePostOrderFacts(g, entry, rpo, s, i, k);
    }
    SearchIsComplete(g, entry, s);
    forall n: nat ensures n in rpo <==> Reachable(g, entry, n) {
      if n in s.rank {
        assert rpo[|rpo| - 1 - s.rank[n]] == n;
      }
      if n in rpo {
        var i :| 0 <= i < |rpo| && rpo[i] == n;
        ReversePostOrderFacts(g, entry, rpo, s, i, i);
      }
    }
  }

  /** `n` is one of the first `i` blocks, or lies in the loop of one of them. */
  ghost predicate Covered(g: Graph, l: Loops, rpo: seq<nat>, i: nat, n: nat)
    requires i <= |rpo|
  {
    exists k :: 0 <= k < i && Member(g, l, rpo[k], n)
  }

  /** What the order has become after `i` blocks of the reverse post-order. */
  ghost predicate Laid(g: Graph, l: Loops, body: map<nat, seq<Item>>, rpo: seq<nat>, i: nat, res: seq<nat>)
    requires Nests(l.heads, body) && i <= |rpo|
  {
    && HasCovered(g, l, rpo, i, res) && (EachOnce(g, l) ==> NoRepeat(res)) && HasPieces(l, body, res)
    && SameStart(rpo, i, res) && InUnits(g, l, rpo, i, res)
  }

  /** The place in the reverse post-order of the first block that covers `n`: the unit that `n` is laid with. */
  ghost function Unit(g: Graph, l: Loops, rpo: seq<nat>, i: nat, n: nat): nat
    requires i <= |rpo|
  {
    if i == 0 then 0 else if Covered(g, l, rpo, i - 1, n) then Unit(g, l, rpo, i - 1, n) else i - 1
  }

  ghost predicate InUnits(g: Graph, l: Loops, rpo: seq<nat>, i: nat, res: seq<nat>)
    requires i <= |rpo|
  {
    forall p, q :: 0 <= p <= q < |res| ==> Unit(g, l, rpo, i, res[p]) <= Unit(g, l, rpo, i, res[q])
  }

  lemma {:induction false} UnitIs(g: Graph, l: Loops, rpo: seq<nat>, i: nat, n: nat)
    requires i <= |rpo| && Covered(g, l, rpo, i, n)
    ensures Unit(g, l, rpo, i, n) < i && Member(g, l, rpo[Unit(g, l, rpo, i, n)], n)
    ensures forall k :: 0 <= k < Unit(g, l, rpo, i, n) ==> !Member(g, l, rpo[k], n)
  {
    if Covered(g, l, rpo, i - 1, n) {
      UnitIs(g, l, rpo, i - 1, n);
    }
  }

  /** What is laid next is a later unit. */
  lemma NextUnit(g: Graph, l: Loops, rpo: seq<nat>, i: nat, res: seq<nat>, blocks: seq<nat>)
    requires i < |rpo| && HasCovered(g, l, rpo, i, res) && InUnits(g, l, rpo, i, res)
    requires forall n :: n in blocks ==> n !in res
    ensures InUnits(g, l, rpo, i + 1, res + blocks)
  {
    var next := res + blocks;
    forall p | 0 <= p < |next|
      ensures Unit(g, l, rpo, i + 1, next[p]) == if p < |res| then Unit(g, l, rpo, i, res[p]) else i
      ensures p < |res| ==> Unit(g, l, rpo, i, res[p]) < i
    {
      if p < |res| {
        assert res[p] in res;
        UnitIs(g, l, rpo, i, res[p]);
      } else {
        assert next[p] in blocks;
      }
    }
    forall p, q | 0 <= p <= q < |next| ensures Unit(g, l, rpo, i + 1, next[p]) <= Unit(g, l, rpo, i + 1, next[q]) {
    }
  }

  ghost predicate SameStart(rpo: seq<nat>, i: nat, res: seq<nat>)
    requires i <= |rpo|
  {
    if i == 0 then res == [] else res != [] && res[0] == rpo[0]
  }

  ghost predicate HasCovered(g: Graph, l: Loops, rpo: seq<nat>, i: nat, res: seq<nat>)
    requires i <= |rpo|
  {
    forall n :: n in res <==> Covered(g, l, rpo, i, n)
  }

  ghost predicate HasPieces(l: Loops, body: map<nat, seq<Item>>, res: seq<nat>)
    requires Nests(l.heads, body)
  {
    forall h :: h in l.heads && h in res ==> Piece(res, LoopOrder(l.heads, body, h))
  }

  lemma CoveredNext(g: Graph, l: Loops, rpo: seq<nat>, i: nat, n: nat)
    requires i < |rpo|
    ensures Covered(g, l, rpo, i + 1, n) <==> Covered(g, l, rpo, i, n) || Member(g, l, rpo[i], n)
  {
    if Covered(g, l, rpo, i, n) {
      var k :| 0 <= k < i && Member(g, l, rpo[k], n);
      assert k < i + 1;
    }
  }

  lemma SkipStep(g: Graph, entry: nat, l: Loops, body: map<nat, seq<Item>>, rpo: seq<nat>, i: nat, res: seq<nat>)
    requires Natural(g, entry, l) && Nests(l.heads, body) && i < |rpo| && Laid(g, l, body, rpo, i, res) && rpo[i] in res
    ensures Laid(g, l, body, rpo, i + 1, res)
  {
    var k :| 0 <= k < i && Member(g, l, rpo[k], rpo[i]);
    forall n ensures n in res <==> Covered(g, l, rpo, i + 1, n) {
      CoveredNext(g, l, rpo, i, n);
      if Member(g, l, rpo[i], n) && n != rpo[i] && rpo[k] != rpo[i] {
        InnerInside(g, entry, l, rpo[i], rpo[k], n);
      }
    }
    NextUnit(g, l, rpo, i, res, []);
    assert res + [] == res;
  }

  lemma BlockStep(g: Graph, l: Loops, body: map<nat, seq<Item>>, rpo: seq<nat>, i: nat, res: seq<nat>)
    requires Nests(l.heads, body) && i < |rpo| && Laid(g, l, body, rpo, i, res)
    requires (forall h :: h in l.heads ==> h in l.latches) && rpo[i] !in res && rpo[i] !in l.latches
    ensures Laid(g, l, body, rpo, i + 1, res + [rpo[i]])
  {
    var bb := rpo[i];
    forall n ensures n in res + [bb] <==> Covered(g, l, rpo, i + 1, n) {
      CoveredNext(g, l, rpo, i, n);
    }
    NextUnit(g, l, rpo, i, res, [bb]);
    NoRepeatJoin(res, [bb]);
    forall h | h in l.heads && h in res + [bb] ensures Piece(res + [bb], LoopOrder(l.heads, body, h)) {
      PieceOfJoin(res, [bb], LoopOrder(l.heads, body, h));
    }
  }

  /** A loop whose header has not been laid yet has none of its blocks laid. */
  lemma LoopIsFresh(g: Graph, entry: nat, l: Loops, rpo: seq<nat>, i: nat, n: nat)
    requires Natural(g, entry, l) && (forall h, n :: InLoop(g, l, h, n) ==> Reachable(g, entry, n))
    requires DominatorsFirst(g, entry, rpo) && i < |rpo| && rpo[i] in l.latches
    requires !Covered(g, l, rpo, i, rpo[i]) && Member(g, l, rpo[i], n)
    ensures !Covered(g, l, rpo, i, n)
  {
    if Covered(g, l, rpo, i, n) {
      var h := rpo[i];
      var k :| 0 <= k < i && Member(g, l, rpo[k], n);
      var y := rpo[k];
      HeaderDominates(g, entry, l, h, n);
      if n != y {
        var a, b := Place(l.heads, h), Place(l.heads, y);
        if a < b {
          Nested(g, entry, l, h, y, n);
        } else {
          Nested(g, entry, l, y, h, n);
          HeaderDominates(g, entry, l, h, y);
        }
      }
      assert false;
    }
  }

  lemma LoopStepHas(g: Graph, entry: nat, l: Loops, body: map<nat, seq<Item>>, rpo: seq<nat>, i: nat,
                    res: seq<nat>, n: nat)
    requires AllFilled(g, entry, l, body) && Nests(l.heads, body) && DominatorsFirst(g, entry, rpo)
    requires i < |rpo| && Laid(g, l, body, rpo, i, res) && rpo[i] !in res && rpo[i] in l.latches
    ensures n in res + LoopOrder(l.heads, body, rpo[i]) <==> Covered(g, l, rpo, i + 1, n)
    ensures n in LoopOrder(l.heads, body, rpo[i]) ==> n !in res
  {
    CoveredNext(g, l, rpo, i, n);
    LoopOrderHas(g, entry, l, body, rpo[i], n);
    if Member(g, l, rpo[i], n) {
      LoopIsFresh(g, entry, l, rpo, i, n);
    }
  }

  lemma LoopStepPiece(g: Graph, entry: nat, l: Loops, body: map<nat, seq<Item>>, h: nat, res: seq<nat>, x: nat)
    requires AllFilled(g, entry, l, body) && Nests(l.heads, body) && h in l.latches && x in l.heads
    requires x in res ==> Piece(res, LoopOrder(l.heads, body, x))
    requires x in res + LoopOrder(l.heads, body, h)
    ensures Piece(res + LoopOrder(l.heads, body, h), LoopOrder(l.heads, body, x))
  {
    if x !in res {
      LoopOrderHas(g, entry, l, body, h, x);
      InnerPiece(g, entry, l, body, h, x);
    }
    PieceOfJoin(res, LoopOrder(l.heads, body, h), LoopOrder(l.heads, body, x));
  }

  lemma LoopStepCovers(g: Graph, entry: nat, l: Loops, body: map<nat, seq<Item>>, rpo: seq<nat>, i: nat, res: seq<nat>)
    requires AllFilled(g, entry, l, body) && Nests(l.heads, body) && DominatorsFirst(g, entry, rpo)
    requires i < |rpo| && Laid(g, l, body, rpo, i, res) && rpo[i] !in res && rpo[i] in l.latches
    ensures HasCovered(g, l, rpo, i + 1, res + LoopOrder(l.heads, body, rpo[i]))
    ensures InUnits(g, l, rpo, i + 1, res + LoopOrder(l.heads, body, rpo[i]))
    ensures EachOnce(g, l) ==> NoRepeat(res + LoopOrder(l.heads, body, rpo[i]))
  {
    var order := LoopOrder(l.heads, body, rpo[i]);
    forall n: nat ensures (n in res + order <==> Covered(g, l, rpo, i + 1, n)) && (n in order ==> n !in res) {
      LoopStepHas(g, entry, l, body, rpo, i, res, n);
    }
    NextUnit(g, l, rpo, i, res, order);
    if EachOnce(g, l) {
      LoopOrderOnce(g, entry, l, body, rpo[i]);
      NoRepeatJoin(res, order);
    }
  }

  lemma LoopStep(g: Graph, entry: nat, l: Loops, body: map<nat, seq<Item>>, rpo: seq<nat>, i: nat, res: seq<nat>)
    requires AllFilled(g, entry, l, body) && Nests(l.heads, body) && DominatorsFirst(g, entry, rpo)
    requires i < |rpo| && Laid(g, l, body, rpo, i, res) && rpo[i] !in res && rpo[i] in l.latches
    ensures Laid(g, l, body, rpo, i + 1, res + LoopOrder(l.heads, body, rpo[i]))
  {
    LoopStepCovers(g, entry, l, body, rpo, i, res);
    forall x | x in l.heads && x in res + LoopOrder(l.heads, body, rpo[i])
      ensures Piece(res + LoopOrder(l.heads, body, rpo[i]), LoopOrder(l.heads, body, x))
    {
      LoopStepPiece(g, entry, l, body, rpo[i], res, x);
    }
  }

  /** The order lists exactly the reachable blocks, the entry first; it lists none twice exactly if no back edge
      is doubled and no inner loop owns the source of one; and the order of every loop is a piece of it. */
  ghost predicate IsLinearOrder(g: Graph, entry: nat, l: Loops, body: map<nat, seq<Item>>, res: seq<nat>)
    requires Nests(l.heads, body)
  {
    && (forall n :: n in res <==> Reachable(g, entry, n))
    && (NoRepeat(res) <==> EachOnce(g, l))
    && (forall h :: h in l.heads ==> Piece(res, LoopOrder(l.heads, body, h)))
    && res != [] && res[0] == entry
  }

  /** The blocks stand by their units in the reverse post-order of the graph. */
  ghost predicate FollowsSearch(g: Graph, entry: nat, l: Loops, res: seq<nat>) {
    exists rpo, s :: IsReversePostOrder(g, entry, rpo, s) && InUnits(g, l, rpo, |rpo|, res)
  }

  /** The entry dominates every block. */
  lemma EntryFirst(g: Graph, entry: nat, rpo: seq<nat>)
    requires DominatorsFirst(g, entry, rpo) && entry < |g|
    ensures rpo != [] && rpo[0] == entry
  {
    assert EntryPath(g, entry, [entry], entry);
    assert Reachable(g, entry, entry);
    var k :| 0 <= k < |rpo| && rpo[k] == entry;
    forall path | EntryPath(g, entry, path, rpo[0]) ensures entry in path {
      assert path[0] == entry;
    }
    assert Dominates(g, entry, rpo[k], rpo[0]);
  }

  lemma OrderIsWhole(g: Graph, entry: nat, l: Loops, body: map<nat, seq<Item>>, rpo: seq<nat>, res: seq<nat>)
    requires AllFilled(g, entry, l, body) && Nests(l.heads, body) && DominatorsFirst(g, entry, rpo)
    requires Laid(g, l, body, rpo, |rpo|, res)
    ensures IsLinearOrder(g, entry, l, body, res)
    ensures |res| == |rpo| <==> EachOnce(g, l)
  {
    forall n: nat ensures n in res <==> n in rpo {
      CoveredIsReachable(g, entry, l, rpo, n);
    }
    forall h | h in l.heads ensures h in res {
      assert l.latches[h][0] in l.latches[h];
      assert IsLatch(g, entry, h, l.latches[h][0]);
      HeaderIsReachable(g, entry, h, l.latches[h][0]);
    }
    if NoRepeat(res) {
      OnceMeans(g, entry, l, body, res);
    }
    EntryFirst(g, entry, rpo);
    DistinctSize(rpo);
    NoRepeatSize(res);
    assert Elements(res) == Elements(rpo);
  }

  lemma OnceMeans(g: Graph, entry: nat, l: Loops, body: map<nat, seq<Item>>, res: seq<nat>)
    requires AllFilled(g, entry, l, body) && Nests(l.heads, body) && NoRepeat(res)
    requires forall h :: h in l.latches ==> Piece(res, LoopOrder(l.heads, body, h))
    ensures EachOnce(g, l)
  {
    forall h: nat, u: nat | h in l.latches
      ensures NoRepeat(l.latches[h]) && (u in l.latches[h] ==> PartOf(g, l, h, Node(u)))
    {
      PieceOnce(res, LoopOrder(l.heads, body, h));
      RepeatedLatch(g, entry, l, body, h, u);
    }
  }

  lemma PieceOnce(whole: seq<nat>, part: seq<nat>)
    requires Piece(whole, part) && NoRepeat(whole)
    ensures NoRepeat(part)
  {
    var a, b :| whole == a + part + b;
    NoRepeatJoin(a + part, b);
    NoRepeatJoin(a, part);
  }

  lemma CoveredIsReachable(g: Graph, entry: nat, l: Loops, rpo: seq<nat>, n: nat)
    requires (forall h, n :: InLoop(g, l, h, n) ==> Reachable(g, entry, n)) && DominatorsFirst(g, entry, rpo)
    ensures Covered(g, l, rpo, |rpo|, n) <==> Reachable(g, entry, n)
  {
    if n in rpo {
      var k :| 0 <= k < |rpo| && rpo[k] == n;
      assert Member(g, l, rpo[k], n);
    }
    if Covered(g, l, rpo, |rpo|, n) {
      var k :| 0 <= k < |rpo| && Member(g, l, rpo[k], n);
      assert rpo[k] in rpo;
    }
  }

  lemma FilledFrom(g: Graph, entry: nat, preds: Graph, found: Record, body: map<nat, seq<Item>>)
    requires PredLists(g, preds) && MatchingPreds(g, entry, preds) && Shape(g, found) && Regular(g, entry, found)
    requires Bodies(g, preds, found, |found.heads|, body)
    ensures AllFilled(g, entry, LoopsOf(found), body)
  {
    var l := LoopsOf(found);
    forall h, n | InLoop(g, l, h, n) ensures Reachable(g, entry, n) {
      var path :| LatchPath(g, l, h, path) && path[0] == n;
      LoopIsReachable(g, entry, preds, l, h, path);
    }
    forall h | h in l.latches ensures l.latches[h] != [] && exists items :: IsBody(g, l, h, body, items) {
      var k := Place(l.heads, h);
      assert BodyIn(g, preds, found, body, found.heads[k], k < |found.heads|);
      var met :| IsMeetOrder(preds, h, found.backEdgesSrc[h], met) && IsBodyOf(g, l, h, body[h], met);
      assert IsBody(g, l, h, body, PartsMet(g, l, h, met));
    }
  }

  /** Exactly the headers belong to their own loops. */
  lemma OwnLoop(g: Graph, entry: nat, l: Loops, toLoop: map<nat, nat>, outer: map<nat, nat>, n: nat)
    requires Natural(g, entry, l) && Owned(g, entry, l, toLoop, outer) && Reachable(g, entry, n)
    ensures n in toLoop && (toLoop[n] == n <==> n in l.latches)
  {
    if n !in l.latches && FirstLoop(g, l, |l.heads|, n).Some? {
      OwnerHas(g, l, FirstLoop(g, l, |l.heads|, n).value, n);
      HeaderDominates(g, entry, l, FirstLoop(g, l, |l.heads|, n).value, n);
    }
  }

  /** The analysis of loops as the order of blocks needs it. */
  ghost predicate Analyzed(g: Graph, entry: nat, preds: Graph, found: Record, toLoop: map<nat, nat>,
                           outer: map<nat, nat>, body: map<nat, seq<Item>>)
  {
    && PredLists(g, preds) && MatchingPreds(g, entry, preds) && entry < |g| && Shape(g, found)
       && Regular(g, entry, found)
    && Owned(g, entry, LoopsOf(found), toLoop, outer) && Bodies(g, preds, found, |found.heads|, body)
  }

  /** What the order of blocks asks of the tables: which blocks are headers of reducible loops. */
  ghost predicate KnowsHeaders(g: Graph, entry: nat, found: Record, toLoop: map<nat, nat>) {
    && (forall n :: Reachable(g, entry, n) ==> n in toLoop && (toLoop[n] == n <==> n in found.backEdgesSrc))
    && (forall h :: h in found.backEdgesSrc ==> h in found.heads && h in found.reducible && found.reducible[h])
  }

  lemma HeadersKnown(g: Graph, entry: nat, preds: Graph, found: Record, toLoop: map<nat, nat>, outer: map<nat, nat>,
                     body: map<nat, seq<Item>>)
    requires Analyzed(g, entry, preds, found, toLoop, outer, body)
    ensures KnowsHeaders(g, entry, found, toLoop)
  {
    forall n | Reachable(g, entry, n) ensures n in toLoop && (toLoop[n] == n <==> n in found.backEdgesSrc) {
      OwnLoop(g, entry, LoopsOf(found), toLoop, outer, n);
    }
  }

  /** `complete` is what the program asserts at the end: no block is missing, and none stands twice. */
  method BuildLinearOrder(g: Graph, entry: nat, found: Record, toLoop: map<nat, nat>, body: map<nat, seq<Item>>,
                          ghost preds: Graph, ghost outer: map<nat, nat>)
    returns (res: seq<nat>, complete: bool)
    requires Analyzed(g, entry, preds, found, toLoop, outer, body)
    ensures Nests(found.heads, body) && IsLinearOrder(g, entry, LoopsOf(found), body, res)
    ensures FollowsSearch(g, entry, LoopsOf(found), res)
    ensures complete <==> EachOnce(g, LoopsOf(found))
  {
    FilledFrom(g, entry, preds, found, body);
    BodiesNest(g, entry, LoopsOf(found), body);
    HeadersKnown(g, entry, preds, found, toLoop, outer, body);
    var rpo; ghost var s;
    rpo, s := ReversePostOrder(g, Some(entry));
    ReversePostOrderServes(g, entry, rpo, s);
    res := LayBlocks(rpo, found, toLoop, body, g, entry);
    OrderIsWhole(g, entry, LoopsOf(found), body, rpo, res);
    complete := |res| == |rpo|;
  }

  method LayBlocks(rpo: seq<nat>, found: Record, toLoop: map<nat, nat>, body: map<nat, seq<Item>>,
                   ghost g: Graph, ghost entry: nat)
    returns (res: seq<nat>)
    requires KnowsHeaders(g, entry, found, toLoop) && AllFilled(g, entry, LoopsOf(found), body)
             && Nests(found.heads, body)
    requires DominatorsFirst(g, entry, rpo)
    ensures Laid(g, LoopsOf(found), body, rpo, |rpo|, res)
  {
    res := [];
    var visited: set<nat> := {};
    for i := 0 to |rpo|
      invariant visited == Elements(res) && Laid(g, LoopsOf(found), body, rpo, i, res)
    {
      if rpo[i] in visited {
        SkipStep(g, entry, LoopsOf(found), body, rpo, i, res);
      } else {
        var blocks := NextBlocks(rpo, i, found, toLoop, body, g, entry, res);
        res, visited := res + blocks, visited + Elements(blocks);
      }
    }
  }

  /** The blocks of the loop that the next block heads, or this block alone. */
  method NextBlocks(rpo: seq<nat>, i: nat, found: Record, toLoop: map<nat, nat>, body: map<nat, seq<Item>>,
                    ghost g: Graph, ghost entry: nat, ghost res: seq<nat>)
    returns (blocks: seq<nat>)
    requires KnowsHeaders(g, entry, found, toLoop) && AllFilled(g, entry, LoopsOf(found), body)
             && Nests(found.heads, body)
    requires DominatorsFirst(g, entry, rpo)
    requires i < |rpo| && Laid(g, LoopsOf(found), body, rpo, i, res) && rpo[i] !in res
    ensures Laid(g, LoopsOf(found), body, rpo, i + 1, res + blocks)
  {
    assert rpo[i] in rpo;
    if toLoop[rpo[i]] == rpo[i] && found.reducible[rpo[i]] {
      blocks := GetLinearOrder(found.heads, body, rpo[i]);
      LoopStep(g, entry, LoopsOf(found), body, rpo, i, res);
    } else {
      blocks := [rpo[i]];
      BlockStep(g, LoopsOf(found), body, rpo, i, res);
    }
  }

  // ----- a latch that an inner loop owns -----

  /** Two loops with one latch: 2 goes back to 1 and to 0. */
  function SharedLatch(): Graph {
    [[1], [2], [1, 0]]
  }

  function SharedLoops(): Loops {
    Loops([1, 0], map[1 := [2], 0 := [2]])
  }

  lemma SharedPaths()
    ensures forall h: nat, n: nat :: h < 2 ==> (InLoop(SharedLatch(), SharedLoops(), h, n) <==> h < n < 3)
  {
    var g, l := SharedLatch(), SharedLoops();
    forall h: nat, n: nat | h < 2 ensures InLoop(g, l, h, n) <==> h < n < 3 {
      assert IsPath(g, [2]) && IsPath(g, [1]);
      Appended(g, [1], [2]);
      if h < n < 3 {
        var path := if n == 1 then [1] + [2] else [2];
        assert LatchPath(g, l, h, path) && path[0] == n;
      }
      if InLoop(g, l, h, n) {
        var path :| LatchPath(g, l, h, path) && path[0] == n;
        InBounds(g, path);
        assert n in path;
        if h == 1 && n == 0 {
          PathEdge(g, path, 0);
        }
      }
    }
  }

  lemma {:induction false} InBounds(g: Graph, path: seq<nat>)
    requires IsPath(g, path)
    ensures path[0] < |g|
  {
    PathFront(g, path, 1);
  }

  function SharedBody(): map<nat, seq<Item>> {
    map[1 := [Node(2)], 0 := [Node(2), Inner(1)]]
  }

  /** What filling the inner loop and then the outer one makes of the bodies: the search for the outer loop
      meets the inner header, and its latch stays listed. */
  lemma SharedFilling()
    ensures var l, owners := SharedLoops(), map[0 := 0, 1 := 1, 2 := 1];
            var f := MeetAll(Filling(owners, map[], []), 0, [1]);
            && OncePerNode(SharedLatch(), l, 1, []) && OncePerNode(SharedLatch(), l, 0, [1])
            && Associated(map[0 := 0, 1 := 1], 1, l.latches[1], owners) && Associated(owners, 0, l.latches[0], owners)
            && SharedBody() == map[1 := NodesOf(l.latches[1]), 0 := NodesOf(l.latches[0]) + f.items]
  {
    SharedPaths();
    var owners := map[0 := 0, 1 := 1, 2 := 1];
    assert MeetAll(Filling(owners, map[], []), 0, []) == Filling(owners, map[], []);
    assert MeetAll(Filling(owners, map[], []), 0, [1]).items == [Inner(1)];
    assert NodesOf([]) == [] && NodesOf([2]) == [Node(2)];
    assert OncePerNode(SharedLatch(), SharedLoops(), 1, []);
    assert OncePerNode(SharedLatch(), SharedLoops(), 0, [1]);
    assert Associated(map[0 := 0, 1 := 1], 1, [2], owners) && Associated(owners, 0, [2], owners);
    assert [Node(2)] + [Inner(1)] == [Node(2), Inner(1)];
  }

  lemma SharedNests()
    ensures Nests([1, 0], SharedBody()) && Place([1, 0], 0) == 1 && Place([1, 0], 1) == 0
  {
    assert [1, 0][..1] == [1];
    assert Place([1], 1) == 0;
  }

  /** The latch of both loops stands twice in the order of the outer one. */
  lemma SharedLatchTwice()
    ensures Nests([1, 0], SharedBody()) && LoopOrder([1, 0], SharedBody(), 0) == [0, 1, 2, 2]
  {
    SharedNests();
    var body := SharedBody();
    assert PartsOrder([1, 0], body, [], 0) == [] && PartsOrder([1, 0], body, [Node(2)], 0) == [2];
    assert LoopOrder([1, 0], body, 1) == [1, 2];
    assert [Node(2), Inner(1)][..1] == [Node(2)];
    assert PartsOrder([1, 0], body, [], 1) == [] && PartsOrder([1, 0], body, [Node(2)], 1) == [2];
    assert PartsOrder([1, 0], body, body[0], 1) == [1, 2] + [2];
  }

  // ----- a header that is itself a latch -----

  /** The header 2 is the latch of the loop of 1, and 1 that of the loop of 0. */
  function HeaderLatches(): Graph {
    [[1], [2, 0], [3, 1], [2]]
  }

  function HeaderLoops(): Loops {
    Loops([2, 1, 0], map[2 := [3], 1 := [2], 0 := [1]])
  }

  function HeaderBody(): map<nat, seq<Item>> {
    map[2 := [Node(3)], 1 := [Node(2), Inner(2)], 0 := [Node(1)]]
  }

  /** In a path of this graph only an edge back leads to a smaller number. */
  lemma {:induction false} ComesFrom(path: seq<nat>, h: nat)
    requires IsPath(HeaderLatches(), path) && h !in path && path[|path| - 1] == h + 1 && h < 3
    ensures h < path[0] < 4
    decreases |path|
  {
    if |path| > 1 {
      PathBack(HeaderLatches(), path, 1);
      PathEdge(HeaderLatches(), path, 0);
      ComesFrom(path[1..], h);
    }
  }

  lemma HeaderPaths(h: nat, n: nat)
    requires h < 3
    ensures InLoop(HeaderLatches(), HeaderLoops(), h, n) <==> h < n < 4
  {
    var g, l := HeaderLatches(), HeaderLoops();
    if h < n < 4 {
      assert IsPath(g, [1]) && IsPath(g, [2]) && IsPath(g, [3]);
      Appended(g, [2], [1]);
      Appended(g, [3], [2]);
      Appended(g, [3], [2] + [1]);
      var path := if n == h + 1 then [n] else if n == h + 2 then [n] + [n - 1] else [3] + ([2] + [1]);
      assert LatchPath(g, l, h, path) && path[0] == n;
    }
    if InLoop(g, l, h, n) {
      var path :| LatchPath(g, l, h, path) && path[0] == n;
      ComesFrom(path, h);
    }
  }

  /** The searches from the latches, and who owns these by then. */
  lemma HeaderSearches()
    ensures var g, l, owners := HeaderLatches(), HeaderLoops(), map[0 := 0, 1 := 1, 2 := 2, 3 := 2];
            && OncePerNode(g, l, 2, []) && OncePerNode(g, l, 1, [3]) && OncePerNode(g, l, 0, [2, 3])
            && Associated(map[0 := 0, 1 := 1, 2 := 2], 2, l.latches[2], owners)
            && Associated(owners, 1, l.latches[1], owners) && Associated(owners, 0, l.latches[0], owners)
  {
    forall h: nat, n: nat | h < 3 ensures InLoop(HeaderLatches(), HeaderLoops(), h, n) <==> h < n < 4 {
      HeaderPaths(h, n);
    }
  }

  /** What filling the three loops makes of the bodies: the search for the loop of 0 starts at the header 1 and meets
      2 and 3, which belong to the loop of 2, and that has its outer loop already; nothing leads to the loop of 1. */
  lemma HeaderFilling()
    ensures var l, owners := HeaderLoops(), map[0 := 0, 1 := 1, 2 := 2, 3 := 2];
            var f := MeetAll(Filling(owners, map[], []), 1, [3]);
            var f' := MeetAll(Filling(owners, f.outer, []), 0, [2, 3]);
            HeaderBody() == map[2 := NodesOf(l.latches[2]), 1 := NodesOf(l.latches[1]) + f.items,
                                0 := NodesOf(l.latches[0]) + f'.items]
  {
    var owners := map[0 := 0, 1 := 1, 2 := 2, 3 := 2];
    var f := MeetAll(Filling(owners, map[], []), 1, [3]);
    assert MeetAll(Filling(owners, map[], []), 1, []) == Filling(owners, map[], []);
    assert f == Filling(owners, map[2 := 1], [Inner(2)]);
    MeetsNothing(owners, f.outer);
    assert NodesOf([]) == [] && NodesOf([1]) == [Node(1)] && NodesOf([2]) == [Node(2)] && NodesOf([3]) == [Node(3)];
    assert [Node(2)] + [Inner(2)] == [Node(2), Inner(2)] && [Node(1)] + [] == [Node(1)];
  }

  lemma MeetsNothing(owners: map<nat, nat>, outer: map<nat, nat>)
    requires owners == map[0 := 0, 1 := 1, 2 := 2, 3 := 2] && 2 in outer
    ensures MeetAll(Filling(owners, outer, []), 0, [2, 3]).items == []
  {
    assert MeetAll(Filling(owners, outer, []), 0, []) == Filling(owners, outer, []);
    assert [2, 3][..1] == [2] && [2][..0] == [];
    assert MeetAll(Filling(owners, outer, []), 0, [2]) == Filling(owners, outer, []);
  }

  lemma HeaderOwners(n: nat)
    requires Owner(HeaderLatches(), HeaderLoops(), n) == Some(1)
    ensures n == 1
  {
    if n == 3 {
      HeaderPaths(2, 3);
    } else if n > 3 {
      HeaderPaths(1, n);
      FirstLoopIs(HeaderLatches(), HeaderLoops(), 3, n);
    }
  }

  lemma HeaderIsUnmet()
    ensures !LatchesOwn(HeaderLatches(), HeaderLoops()) && !LoopsAreMet(HeaderLatches(), HeaderLoops())
  {
    var g, l := HeaderLatches(), HeaderLoops();
    assert 2 in l.latches[1] && 2 in l.latches;
    HeaderPaths(2, 1);
    HeaderPaths(1, 1);
    HeaderPaths(0, 1);
    assert FirstLoop(g, l, 1, 1) == None && FirstLoop(g, l, 2, 1) == None;
    assert FirstLoop(g, l, 3, 1) == Some(0);
    if IsMet(g, l, 1, 0) {
      var n :| Owner(g, l, n) == Some(1) && n !in l.latches[0];
      HeaderOwners(n);
    }
  }

  lemma HeaderNests()
    ensures Nests([2, 1, 0], HeaderBody())
  {
    var heads := [2, 1, 0];
    assert heads[..2] == [2, 1] && [2, 1][..1] == [2];
    assert Place([2], 2) == 0 && Place([2, 1], 2) == 0 && Place(heads, 2) == 0;
    assert Place([2, 1], 1) == 1 && Place(heads, 1) == 1;
  }

  lemma OneNodeOrder(heads: seq<nat>, body: map<nat, seq<Item>>, h: nat, n: nat)
    requires Nests(heads, body) && h in heads && body[h] == [Node(n)]
    ensures LoopOrder(heads, body, h) == [h, n]
  {
    var i := Place(heads, h);
    assert [Node(n)][..0] == [] && PartsOrder(heads, body, [], i) == [];
    assert PartsOrder(heads, body, [Node(n)], i) == [n];
  }

  /** Although latches do not belong to their own loops, the blocks that are laid out stand there once: the order is
      that of the loop of 0 and then, as 2 is not in it, that of the loop of 2. The loop of 1 is not met. */
  lemma UnmetLoopOnce()
    ensures !LatchesOwn(HeaderLatches(), HeaderLoops()) && !LoopsAreMet(HeaderLatches(), HeaderLoops())
    ensures Nests([2, 1, 0], HeaderBody()) && NoRepeat([0, 1] + [2, 3])
    ensures LoopOrder([2, 1, 0], HeaderBody(), 0) == [0, 1] && LoopOrder([2, 1, 0], HeaderBody(), 2) == [2, 3]
  {
    HeaderIsUnmet();
    HeaderNests();
    OneNodeOrder([2, 1, 0], HeaderBody(), 0, 1);
    OneNodeOrder([2, 1, 0], HeaderBody(), 2, 3);
    NoRepeatJoin([0, 1], [2, 3]);
    assert NoRepeat([0]) && NoRepeat([2]) && [0, 1][..1] == [0] && [2, 3][..1] == [2];
  }
}
