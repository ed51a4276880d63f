/** Intrusive doubly linked lists: rings of nodes through a sentinel. */
module IntrusiveLists {

  class IListNode {
    var prev: IListNode?
    var next: IListNode?

    constructor ()
      ensures prev == null && next == null
    {
      prev, next := null, null;
    }
  }

  ghost function Elems(s: seq<IListNode>): set<IListNode> {
    set x | x in s
  }

  /** `y` follows `x`. */
  ghost predicate Adjacent(x: IListNode, y: IListNode)
    reads x, y
  {
    x.next == y && y.prev == x
  }

  /** The nodes follow each other in this order. */
  ghost predicate Linked(s: seq<IListNode>)
    reads s
  {
    forall i :: 0 < i < |s| ==> Adjacent(s[i - 1], s[i])
  }

  ghost predicate Distinct(s: seq<IListNode>) {
    forall i, j :: 0 <= i < |s| && 0 <= j < |s| && s[i] == s[j] ==> i == j
  }

  /** ... and the first one follows the last one again. */
  ghost predicate Ring(s: seq<IListNode>)
    reads s
  {
    s != [] && Distinct(s) && Linked(s) && Adjacent(s[|s| - 1], s[0])
  }

  /** A ring may be told from any of its nodes. */
  lemma Rotate(a: seq<IListNode>, b: seq<IListNode>)
    requires Ring(a + b)
    ensures Ring(b + a)
  {
    var s, r := a + b, b + a;
    forall i | 0 <= i < |r| ensures r[i] == s[if i < |b| then |a| + i else i - |b|] {
    }
  }

  /** Parts of a ring, and what joins them. */
  lemma Parts(a: seq<IListNode>, b: seq<IListNode>)
    ensures Linked(a + b) <==>
        Linked(a) && Linked(b) && (a != [] && b != [] ==> Adjacent(a[|a| - 1], b[0]))
  {
    var s := a + b;
    if Linked(s) {
      forall i | 0 < i < |a| ensures Adjacent(a[i - 1], a[i]) {
        assert Adjacent(s[i - 1], s[i]);
      }
      forall i | 0 < i < |b| ensures Adjacent(b[i - 1], b[i]) {
        assert Adjacent(s[|a| + i - 1], s[|a| + i]);
      }
      if a != [] && b != [] {
        assert Adjacent(s[|a| - 1], s[|a|]);
      }
    }
  }

  /** Puts `toInsert` before `point`. */
  method InsertBefore(point: IListNode, toInsert: IListNode, ghost ring: seq<IListNode>)
    requires Ring(ring) && ring[0] == point && toInsert !in ring
    modifies toInsert, point, ring[|ring| - 1]
    ensures Ring([toInsert] + ring)
  {
    var prev := point.prev;
    if prev != null {
      prev.next := toInsert;
    }
    toInsert.prev := prev;
    toInsert.next := point;
    point.prev := toInsert;
  }

  lemma DistinctParts(a: seq<IListNode>, b: seq<IListNode>)
    requires Distinct(a + b)
    ensures Distinct(a) && Distinct(b) && Distinct(b + a) && forall x :: x in a ==> x !in b
  {
    var s, r := a + b, b + a;
    assert forall i :: 0 <= i < |a| ==> s[i] == a[i];
    assert forall i :: 0 <= i < |b| ==> s[|a| + i] == b[i];
    assert forall i :: 0 <= i < |r| ==> r[i] == s[if i < |b| then |a| + i else i - |b|];
  }

  /** Takes a node out of its ring. */
  method Remove(toRemove: IListNode, ghost rest: seq<IListNode>)
    requires rest != [] && Ring([toRemove] + rest)
    modifies toRemove, rest[0], rest[|rest| - 1]
    ensures Ring(rest) && toRemove.prev == null && toRemove.next == null
  {
    Parts([toRemove], rest);
    DistinctParts([toRemove], rest);
    var next := toRemove.next;
    var prev := toRemove.prev;
    next.prev := prev;
    prev.next := next;
    toRemove.next := null;
    toRemove.prev := null;
  }

  /** Moves the nodes from `first` up to but not including `last` before `point`. Either the three parts
      make one ring, told from `first`: the moved nodes, those from `last` to before `point`, those from
      `point` on; or the first two parts are one ring and `after` is another. */
  method MoveBefore(point: IListNode, first: IListNode, last: IListNode, ghost oneRing: bool,
                    ghost moved: seq<IListNode>, ghost between: seq<IListNode>, ghost after: seq<IListNode>)
    requires after != [] && Distinct(moved + between + after)
    requires if oneRing then Ring(moved + between + after) else between != [] && Ring(moved + between) && Ring(after)
    requires point == after[0] && last == (between + after)[0] && first == (moved + between + after)[0]
    modifies Elems(moved), Elems(between), Elems(after)
    ensures if oneRing then Ring(between + moved + after) else Ring(between) && Ring(moved + after)
  {
    if last == point || first == last {
      NothingToMove(moved, between, after);
      assert moved == [] ==> moved + between == between && between + moved == between && moved + after == after;
      assert between == [] ==> moved + between == moved && between + moved == moved;
      return;
    }
    BeforeMove(oneRing, moved, between, after);
    DistinctThree(moved, between, after);
    Relink(point, first, last, moved, between, after, if oneRing then after else between,
           if oneRing then between else after);
    AfterMove(oneRing, moved, between, after);
  }

  lemma AfterMove(oneRing: bool, moved: seq<IListNode>, between: seq<IListNode>, after: seq<IListNode>)
    requires moved != [] && between != [] && after != [] && Distinct(moved + between + after)
    requires Linked(moved) && Linked(between) && Linked(after)
    requires var p, q := if oneRing then after else between, if oneRing then between else after;
             Adjacent(p[|p| - 1], between[0]) && Adjacent(q[|q| - 1], moved[0])
    requires Adjacent(moved[|moved| - 1], after[0])
    ensures if oneRing then Ring(between + moved + after) else Ring(between) && Ring(moved + after)
  {
    DistinctThree(moved, between, after);
    LinkedThree(between, moved, after);
  }

  /** The first node of `a` is put behind the last one of `q`, its last one before the first one of `c`;
      the last one of `p` and the first one of `b` close the gap. */
  method Relink(point: IListNode, first: IListNode, last: IListNode,
                ghost a: seq<IListNode>, ghost b: seq<IListNode>, ghost c: seq<IListNode>,
                ghost p: seq<IListNode>, ghost q: seq<IListNode>)
    requires a != [] && b != [] && c != [] && Linked(a) && Linked(b) && Linked(c)
    requires Distinct(a) && Distinct(b) && Distinct(c)
    requires forall x :: x in a ==> x !in b && x !in c
    requires forall x :: x in b ==> x !in c
    requires first == a[0] && last == b[0] && point == c[0]
    requires last.prev == a[|a| - 1]
    requires (p == b && q == c) || (p == c && q == b)
    requires first.prev == p[|p| - 1] && point.prev == q[|q| - 1]
    modifies first, last, point, a[|a| - 1], b[|b| - 1], c[|c| - 1]
    ensures Linked(a) && Linked(b) && Linked(c)
    ensures Adjacent(p[|p| - 1], last) && Adjacent(q[|q| - 1], first) && Adjacent(a[|a| - 1], point)
  {
    assert first in a && last in b && point in c;
    assert a[|a| - 1] in a && b[|b| - 1] in b && c[|c| - 1] in c;
    var lastToIns := last.prev;
    var preFirst := first.prev;
    last.prev := preFirst;
    preFirst.next := last;

    var prev := point.prev;
    point.prev := lastToIns;
    prev.next := first;

    lastToIns.next := point;
    first.prev := prev;
  }

  lemma BeforeMove(oneRing: bool, moved: seq<IListNode>, between: seq<IListNode>, after: seq<IListNode>)
    requires moved != [] && between != [] && after != []
    requires if oneRing then Ring(moved + between + after) else Ring(moved + between) && Ring(after)
    ensures Linked(moved) && Linked(between) && Linked(after)
    ensures between[0].prev == moved[|moved| - 1]
    ensures var p, q := if oneRing then after else between, if oneRing then between else after;
            moved[0].prev == p[|p| - 1] && after[0].prev == q[|q| - 1]
  {
    LinkedThree(moved, between, after);
  }

  lemma JoinDistinct(a: seq<IListNode>, b: seq<IListNode>)
    requires Distinct(a) && Distinct(b) && forall x :: x in a ==> x !in b
    ensures Distinct(a + b)
  {
    var s := a + b;
    forall i, j | 0 <= i < |s| && 0 <= j < |s| && s[i] == s[j] ensures i == j {
      assert i < |a| ==> s[i] in a;
      assert j < |a| ==> s[j] in a;
      assert i >= |a| ==> s[i] in b;
      assert j >= |a| ==> s[j] in b;
    }
  }

  lemma DistinctThree(a: seq<IListNode>, b: seq<IListNode>, c: seq<IListNode>)
    requires Distinct(a + b + c)
    ensures Distinct(a) && Distinct(b) && Distinct(c) && Distinct(b + a + c) && Distinct(a + c)
    ensures forall x :: x in a ==> x !in b && x !in c
    ensures forall x :: x in b ==> x !in c
  {
    DistinctParts(a + b, c);
    DistinctParts(a, b);
    assert forall x :: x in a ==> x in a + b;
    assert forall x :: x in b ==> x in a + b;
    JoinDistinct(a, c);
    JoinDistinct(b + a, c);
  }

  lemma LinkedThree(a: seq<IListNode>, b: seq<IListNode>, c: seq<IListNode>)
    requires a != [] && b != [] && c != []
    ensures Linked(a + b + c) <==>
        Linked(a) && Linked(b) && Linked(c) && Adjacent(a[|a| - 1], b[0]) && Adjacent(b[|b| - 1], c[0])
    ensures Linked(a + b) <==> Linked(a) && Linked(b) && Adjacent(a[|a| - 1], b[0])
    ensures Linked(b + c) <==> Linked(b) && Linked(c) && Adjacent(b[|b| - 1], c[0])
  {
    Parts(a + b, c);
    Parts(a, b);
    Parts(b, c);
  }

  lemma NothingToMove(moved: seq<IListNode>, between: seq<IListNode>, after: seq<IListNode>)
    requires after != [] && Distinct(moved + between + after)
    requires (between + after)[0] == after[0] || (moved + between + after)[0] == (between + after)[0]
    ensures moved == [] || between == []
  {
    var s := moved + between + after;
    assert s[|moved| + |between|] == after[0] && s[|moved|] == (between + after)[0];
  }

  // ----- lists -----

  /** The nodes of a list, without its sentinel, in order. */
  class IList {
    const sentinel: IListNode
    ghost var nodes: seq<IListNode>

    ghost predicate Valid()
      reads this, sentinel, nodes
    {
      Ring([sentinel] + nodes)
    }

    constructor ()
      ensures Valid() && nodes == [] && fresh(sentinel)
    {
      sentinel := new IListNode();
      nodes := [];
      new;
      sentinel.prev := sentinel;
      sentinel.next := sentinel;
    }

    method Empty() returns (empty: bool)
      requires Valid()
      ensures empty <==> nodes == []
    {
      empty := sentinel == sentinel.prev;
      assert sentinel.prev == ([sentinel] + nodes)[|nodes|];
    }

    /** The ring told from position `k`; the end of the list is the sentinel. */
    ghost function From(k: nat): seq<IListNode>
      requires k <= |nodes|
      reads this
    {
      nodes[k..] + [sentinel] + nodes[..k]
    }

    lemma ToldFrom(k: nat)
      requires Valid() && k <= |nodes|
      ensures Ring(From(k))
    {
      var a, b := [sentinel] + nodes[..k], nodes[k..];
      assert a + b == [sentinel] + nodes;
      Rotate(a, b);
      assert b + a == From(k);
    }

    method Insert(pos: IListNode, node: IListNode, ghost k: nat)
      requires Valid() && k <= |nodes| && pos == (nodes + [sentinel])[k]
      requires node !in nodes && node != sentinel
      modifies this, sentinel, node, Elems(nodes)
      ensures Valid() && nodes == old(nodes[..k] + [node] + nodes[k..])
    {
      ToldFrom(k);
      ghost var ring := From(k);
      assert ring[0] == pos && pos in ring && ring[|ring| - 1] in ring;
      assert forall x :: x in ring ==> x == sentinel || x in nodes;
      InsertBefore(pos, node, ring);
      ghost var a, b := [node] + nodes[k..], [sentinel] + nodes[..k];
      assert a + b == [node] + ring;
      Rotate(a, b);
      nodes := nodes[..k] + [node] + nodes[k..];
      assert b + a == [sentinel] + nodes;
    }

    method PushBack(node: IListNode)
      requires Valid() && node !in nodes && node != sentinel
      modifies this, sentinel, node, Elems(nodes)
      ensures Valid() && nodes == old(nodes) + [node]
    {
      assert nodes[..|nodes|] == nodes;
      Insert(sentinel, node, |nodes|);
    }

    /** Takes out a node and returns the one after it. */
    method RemoveAt(pos: IListNode, ghost k: nat) returns (after: IListNode)
      requires Valid() && k < |nodes| && pos == nodes[k]
      modifies this, sentinel, Elems(nodes)
      ensures Valid() && nodes == old(nodes[..k] + nodes[k + 1..])
      ensures k <= |nodes| && after == (nodes + [sentinel])[k]
      ensures pos.prev == null && pos.next == null
    {
      ToldFrom(k);
      ghost var rest := nodes[k + 1..] + [sentinel] + nodes[..k];
      assert [pos] + rest == From(k);
      assert Adjacent(From(k)[0], From(k)[1]);
      after := pos.next;
      assert forall x :: x in rest ==> x == sentinel || x in nodes;
      assert rest[0] in rest && rest[|rest| - 1] in rest;
      Remove(pos, rest);
      ghost var a, b := nodes[k + 1..], [sentinel] + nodes[..k];
      assert a + b == rest;
      Rotate(a, b);
      nodes := nodes[..k] + nodes[k + 1..];
      assert b + a == [sentinel] + nodes;
    }

    /** Takes out the nodes from `first` up to but not including `last`. */
    method EraseRange(first: IListNode, last: IListNode, ghost i: nat, ghost j: nat)
      requires Valid() && i <= j <= |nodes| && first == (nodes + [sentinel])[i] && last == (nodes + [sentinel])[j]
      modifies this, sentinel, Elems(nodes)
      ensures Valid() && nodes == old(nodes[..i] + nodes[j..])
    {
      var pos := first;
      ghost var left: nat := j - i;
      assert nodes == old(nodes[..i] + nodes[j - left..]);
      while pos != last
        invariant Valid() && left <= j - i && nodes == old(nodes[..i] + nodes[j - left..])
        invariant pos == (nodes + [sentinel])[i] && last == (nodes + [sentinel])[i + left]
        invariant forall x :: x in nodes ==> x in old(nodes)
        decreases left
      {
        PosInside(i, left);
        pos := RemoveAt(pos, i);
        left := left - 1;
      }
      PosAtEnd(i, left);
    }

    /** Positions of different places differ. */
    lemma PosInside(i: nat, left: nat)
      requires Valid() && i + left <= |nodes| && (nodes + [sentinel])[i] != (nodes + [sentinel])[i + left]
      ensures left > 0 && i < |nodes|
    {
    }

    lemma PosAtEnd(i: nat, left: nat)
      requires Valid() && i + left <= |nodes| && (nodes + [sentinel])[i] == (nodes + [sentinel])[i + left]
      ensures left == 0
    {
      ghost var ring := [sentinel] + nodes;
      assert ring[if i < |nodes| then i + 1 else 0] == (nodes + [sentinel])[i];
      assert ring[if i + left < |nodes| then i + left + 1 else 0] == (nodes + [sentinel])[i + left];
    }

    method Clear()
      requires Valid()
      modifies this, sentinel, Elems(nodes)
      ensures Valid() && nodes == []
    {
      assert sentinel.next == (nodes + [sentinel])[0] by {
        ghost var ring := [sentinel] + nodes;
        assert nodes != [] ==> Adjacent(ring[0], ring[1]);
      }
      EraseRange(sentinel.next, sentinel, 0, |nodes|);
    }

    /** Moves the nodes from `first` up to but not including `last` of another list before `pos`. */
    method Splice(pos: IListNode, other: IList, first: IListNode, last: IListNode,
                  ghost front: seq<IListNode>, ghost back: seq<IListNode>,
                  ghost before: seq<IListNode>, ghost moved: seq<IListNode>, ghost rest: seq<IListNode>)
      requires Valid() && other.Valid() && Apart(other)
      requires nodes == front + back && other.nodes == before + moved + rest
      requires pos == (back + [sentinel])[0]
      requires first == (moved + rest + [other.sentinel])[0] && last == (rest + [other.sentinel])[0]
      modifies this, sentinel, other, other.sentinel, Elems(nodes) + Elems(other.nodes)
      ensures Valid() && other.Valid() && Apart(other)
      ensures nodes == front + (moved + back) && other.nodes == before + rest
    {
      assert sentinel in [sentinel] + nodes;
      StillApart(sentinel, other.sentinel, before, moved, rest, front, back);
      MoveParts(pos, first, last, sentinel, other.sentinel, before, moved, rest, front, back);
      other.nodes := before + rest;
      nodes := front + (moved + back);
    }

    /** The lists share no node. */
    ghost predicate Apart(other: IList)
      reads this, other
    {
      forall x :: x in [sentinel] + nodes ==> x !in [other.sentinel] + other.nodes
    }

    /** The same within one list, to a place outside the moved nodes: behind them or before them. */
    method SpliceWithin(pos: IListNode, first: IListNode, last: IListNode, ghost k: nat, ghost i: nat, ghost j: nat)
      requires Valid() && i <= j <= |nodes| && k <= |nodes| && (j <= k || k < i)
      requires pos == (nodes + [sentinel])[k] && pos != first
      requires first == (nodes + [sentinel])[i] && last == (nodes + [sentinel])[j]
      modifies this, sentinel, Elems(nodes)
      ensures Valid() && nodes == Moved(old(nodes), k, i, j)
    {
      ghost var moved := nodes[i..j];
      ghost var between, after := Between(sentinel, nodes, k, i, j), After(sentinel, nodes, k, i, j);
      ToldFrom(i);
      PartsWithin(sentinel, nodes, k, i, j);
      MoveBefore(pos, first, last, true, moved, between, after);
      JoinedAgain(sentinel, nodes, k, i, j);
      nodes := Moved(nodes, k, i, j);
    }

    /** Moving nodes to another list and back restores both lists. */
    method SpliceThereAndBack(pos: IListNode, other: IList, first: IListNode, last: IListNode,
                              ghost front: seq<IListNode>, ghost back: seq<IListNode>,
                              ghost before: seq<IListNode>, ghost moved: seq<IListNode>, ghost rest: seq<IListNode>)
      requires Valid() && other.Valid() && Apart(other)
      requires nodes == front + back && other.nodes == before + moved + rest && moved != []
      requires pos == (back + [sentinel])[0] && first == moved[0] && last == (rest + [other.sentinel])[0]
      modifies this, sentinel, other, other.sentinel, Elems(nodes) + Elems(other.nodes)
      ensures Valid() && other.Valid() && nodes == old(nodes) && other.nodes == old(other.nodes)
    {
      Splice(pos, other, first, last, front, back, before, moved, rest);
      assert nodes == front + moved + back;
      SameNodes(before, moved, rest, front, back);
      other.Splice(last, this, first, pos, before, rest, front, moved, back);
      assert before + (moved + rest) == before + moved + rest;
    }
  }

  lemma SameNodes(before: seq<IListNode>, moved: seq<IListNode>, rest: seq<IListNode>,
                  front: seq<IListNode>, back: seq<IListNode>)
    ensures forall x :: x in front + (moved + back) ==> x in front + back || x in before + moved + rest
    ensures forall x :: x in before + rest ==> x in before + moved + rest
  {
  }

  lemma StillApart(s: IListNode, t: IListNode, before: seq<IListNode>, moved: seq<IListNode>, rest: seq<IListNode>,
                   front: seq<IListNode>, back: seq<IListNode>)
    requires Distinct([t] + (before + moved + rest))
    requires forall x :: x in [s] + (front + back) ==> x !in [t] + (before + moved + rest)
    ensures forall x :: x in [s] + (front + (moved + back)) ==> x !in [t] + (before + rest)
  {
    assert [t] + (before + moved + rest) == ([t] + before) + moved + rest;
    DistinctThree([t] + before, moved, rest);
    forall x | x in [t] + (before + rest) ensures x !in [s] + (front + (moved + back)) {
      assert x in [t] + (before + moved + rest);
      assert x in [t] + before || x in rest;
      assert x !in moved;
    }
  }

  /** The list with the nodes from `i` to before `j` put before the one at `k`. */
  ghost function Moved(n: seq<IListNode>, k: nat, i: nat, j: nat): seq<IListNode>
    requires i <= j <= |n| && k <= |n| && (j <= k || k < i)
  {
    if j <= k then n[..i] + n[j..k] + n[i..j] + n[k..] else n[..k] + n[i..j] + n[k..i] + n[j..]
  }

  /** What lies between the moved nodes and the new place, and from there round to the moved nodes. */
  ghost function Between(s: IListNode, n: seq<IListNode>, k: nat, i: nat, j: nat): seq<IListNode>
    requires i <= j <= |n| && k <= |n| && (j <= k || k < i)
  {
    if j <= k then n[j..k] else n[j..] + [s] + n[..k]
  }

  ghost function After(s: IListNode, n: seq<IListNode>, k: nat, i: nat, j: nat): seq<IListNode>
    requires i <= j <= |n| && k <= |n| && (j <= k || k < i)
  {
    if j <= k then n[k..] + [s] + n[..i] else n[k..i]
  }

  lemma PartsWithin(s: IListNode, n: seq<IListNode>, k: nat, i: nat, j: nat)
    requires i <= j <= |n| && k <= |n| && (j <= k || k < i)
    ensures n[i..j] + Between(s, n, k, i, j) + After(s, n, k, i, j) == n[i..] + [s] + n[..i]
    ensures var all := n[i..j] + Between(s, n, k, i, j) + After(s, n, k, i, j);
            forall x :: x in all ==> x == s || x in n
  {
    if j <= k {
      assert n[i..j] + n[j..k] + n[k..] == n[i..];
    } else {
      assert n[..k] + n[k..i] == n[..i] && n[i..j] + n[j..] == n[i..];
    }
  }

  lemma JoinedAgain(s: IListNode, n: seq<IListNode>, k: nat, i: nat, j: nat)
    requires i <= j <= |n| && k <= |n| && (j <= k || k < i)
    requires Ring(Between(s, n, k, i, j) + n[i..j] + After(s, n, k, i, j))
    ensures Ring([s] + Moved(n, k, i, j))
  {
    var ring := Between(s, n, k, i, j) + n[i..j] + After(s, n, k, i, j);
    if j <= k {
      var back := n[j..k] + n[i..j] + n[k..];
      assert ring == back + [s] + n[..i];
      RotateBack(s, n[..i], back);
      assert n[..i] + back == Moved(n, k, i, j);
    } else {
      var front := n[..k] + n[i..j] + n[k..i];
      assert ring == n[j..] + [s] + front;
      RotateBack(s, front, n[j..]);
    }
  }

  lemma BeforeSplice(s: IListNode, t: IListNode, before: seq<IListNode>, moved: seq<IListNode>, rest: seq<IListNode>,
                     front: seq<IListNode>, back: seq<IListNode>)
    requires Ring([t] + (before + moved + rest)) && Ring([s] + (front + back))
    requires forall x :: x in [s] + (front + back) ==> x !in [t] + (before + moved + rest)
    ensures var between, after := rest + [t] + before, back + [s] + front;
            Distinct(moved + between + after) && Ring(moved + between) && Ring(after)
    ensures forall x :: x in moved + (rest + [t] + before) + (back + [s] + front) ==>
        x == s || x == t || x in front + back || x in before + moved + rest
  {
    var between, after := rest + [t] + before, back + [s] + front;
    assert [t] + (before + moved + rest) == ([t] + before) + (moved + rest);
    Rotate([t] + before, moved + rest);
    assert moved + between == (moved + rest) + ([t] + before);
    assert [s] + (front + back) == ([s] + front) + back;
    Rotate([s] + front, back);
    assert after == back + ([s] + front);
    forall x | x in moved + between ensures x !in after {
      assert x in [t] + (before + moved + rest);
      assert x in after ==> x in [s] + (front + back);
    }
    JoinDistinct(moved + between, after);
  }

  /** The move between two lists, told from their sentinels `s` and `t`. */
  method MoveParts(pos: IListNode, first: IListNode, last: IListNode, ghost s: IListNode, ghost t: IListNode,
                   ghost before: seq<IListNode>, ghost moved: seq<IListNode>, ghost rest: seq<IListNode>,
                   ghost front: seq<IListNode>, ghost back: seq<IListNode>)
    requires Ring([t] + (before + moved + rest)) && Ring([s] + (front + back))
    requires forall x :: x in [s] + (front + back) ==> x !in [t] + (before + moved + rest)
    requires pos == (back + [s])[0] && last == (rest + [t])[0] && first == (moved + rest + [t])[0]
    modifies {s, t} + Elems(front + back) + Elems(before + moved + rest)
    ensures Ring([t] + (before + rest)) && Ring([s] + (front + (moved + back)))
  {
    BeforeSplice(s, t, before, moved, rest, front, back);
    MoveBefore(pos, first, last, false, moved, rest + [t] + before, back + [s] + front);
    RotateBack(t, before, rest);
    assert moved + (back + [s] + front) == (moved + back) + [s] + front;
    RotateBack(s, front, moved + back);
  }

  lemma RotateBack(sentinel: IListNode, front: seq<IListNode>, back: seq<IListNode>)
    requires Ring(back + [sentinel] + front)
    ensures Ring([sentinel] + (front + back))
  {
    assert back + [sentinel] + front == back + ([sentinel] + front);
    Rotate(back, [sentinel] + front);
    assert [sentinel] + front + back == [sentinel] + (front + back);
  }
}
