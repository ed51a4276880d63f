/** The disjoint-set forest of the dominator builder. */
module Dsu {
  // `Find` returns the vertex of least semidominator on the way to the root, and compresses the way it took.
  // Vertices are named by their DFS time; a vertex is only ever linked to an earlier one.

  /** `links[x]` is the vertex `x` was united with, itself for a root; compression does not change it. */
  ghost predicate ValidLinks(links: seq<nat>) {
    forall x :: 0 <= x < |links| ==> links[x] <= x
  }

  /** The vertices from `x` up to its root, both included, along the links. */
  ghost function Above(links: seq<nat>, x: nat): set<nat>
    requires ValidLinks(links) && x < |links|
  {
    if links[x] == x then {x} else {x} + Above(links, links[x])
  }

  /** `r` is the vertex of least `sdoms` from `x` up to its root, the one nearest to `x` if several. */
  ghost predicate NearestMin(links: seq<nat>, sdoms: seq<nat>, x: nat, r: nat)
    requires ValidLinks(links) && x < |links| == |sdoms|
  {
    && r in Above(links, x) && r < |links|
    && (forall y :: y in Above(links, x) ==> y < |links| && sdoms[r] <= sdoms[y])
    && (forall y :: y in Above(links, x) && r < y ==> sdoms[r] < sdoms[y])
  }

  /** The parent of `x` is a vertex further up; the label is least on the part of the way that compression
      has skipped, up to the parent, and less than everything nearer to `x`. */
  ghost predicate NodeOk(links: seq<nat>, parents: seq<nat>, labels: seq<nat>, sdoms: seq<nat>, x: nat)
    requires ValidLinks(links) && x < |links| == |parents| == |labels| == |sdoms|
  {
    if links[x] == x then parents[x] == x && labels[x] == x
    else
      var p, l := parents[x], labels[x];
      && p < x && p in Above(links, links[x])
      && l in Above(links, x) && l <= x
      && (forall y :: y in Above(links, x) ==> y < |links|)
      && (forall y :: y in Above(links, x) && y !in Above(links, p) ==> sdoms[l] <= sdoms[y])
      && (forall y :: y in Above(links, x) && l < y ==> sdoms[l] < sdoms[y])
  }

  ghost predicate ForestOk(links: seq<nat>, parents: seq<nat>, labels: seq<nat>, sdoms: seq<nat>) {
    && ValidLinks(links) && |links| == |parents| == |labels| == |sdoms|
    && forall x :: 0 <= x < |links| ==> NodeOk(links, parents, labels, sdoms, x)
  }

  lemma {:induction false} AboveBelow(links: seq<nat>, x: nat)
    requires ValidLinks(links) && x < |links|
    ensures forall y :: y in Above(links, x) ==> y <= x
  {
    if links[x] != x {
      AboveBelow(links, links[x]);
    }
  }

  lemma {:induction false} AboveTransitive(links: seq<nat>, x: nat, y: nat)
    requires ValidLinks(links) && x < |links| && y in Above(links, x)
    ensures y < |links| && Above(links, y) <= Above(links, x)
  {
    if y != x {
      AboveTransitive(links, links[x], y);
    }
  }

  /** All vertices on one way have the same root. */
  lemma {:induction false} SharedRoot(links: seq<nat>, x: nat, y: nat, root: nat)
    requires ValidLinks(links) && x < |links| && y in Above(links, x) && root in Above(links, x)
    requires root < |links| && links[root] == root
    ensures y < |links| && root in Above(links, y)
  {
    if y != x {
      SharedRoot(links, links[x], y, root);
    }
  }

  /** The semidominator of a root may decrease at any time. */
  lemma RootDecreases(links: seq<nat>, parents: seq<nat>, labels: seq<nat>, sdoms: seq<nat>, root: nat, v: nat)
    requires ForestOk(links, parents, labels, sdoms)
    requires root < |links| && links[root] == root && v <= sdoms[root]
    ensures ForestOk(links, parents, labels, sdoms[root := v])
  {
    var sdoms' := sdoms[root := v];
    forall x: nat | x < |links| ensures NodeOk(links, parents, labels, sdoms', x) {
      assert NodeOk(links, parents, labels, sdoms, x);
      if links[x] != x && root in Above(links, x) {
        AboveBelow(links, root);
        SharedRoot(links, x, parents[x], root);
        SharedRoot(links, x, labels[x], root);
        AboveBelow(links, labels[x]);
      }
    }
  }

  lemma {:induction false} AboveUnaffected(links: seq<nat>, node: nat, parent: nat, x: nat)
    requires ValidLinks(links) && parent < node < |links| && x < node
    ensures Above(links[node := parent], x) == Above(links, x)
  {
    if links[x] != x {
      AboveUnaffected(links, node, parent, links[x]);
    }
  }

  /** Linking a root to an earlier vertex. */
  lemma {:induction false} AboveAfterUnite(links: seq<nat>, node: nat, parent: nat, x: nat)
    requires ValidLinks(links) && parent < node < |links| && links[node] == node && x < |links|
    ensures Above(links[node := parent], x)
         == Above(links, x) + if node in Above(links, x) then Above(links, parent) else {}
  {
    AboveUnaffected(links, node, parent, parent);
    if links[x] != x {
      AboveAfterUnite(links, node, parent, links[x]);
    }
  }

  /** One step of compression: the label of `x` against the least vertex from its parent on. */
  lemma Compress(links: seq<nat>, parents: seq<nat>, labels: seq<nat>, sdoms: seq<nat>,
                 x: nat, found: nat, best: nat)
    requires ValidLinks(links) && x < |links| == |parents| == |labels| == |sdoms|
    requires links[x] != x && NodeOk(links, parents, labels, sdoms, x)
    requires NearestMin(links, sdoms, parents[x], found)
    requires labels[x] < |links| && best == if sdoms[found] < sdoms[labels[x]] then found else labels[x]
    ensures NearestMin(links, sdoms, x, best)
    ensures NodeOk(links, parents[x := found], labels[x := best], sdoms, x)
  {
    AboveBelow(links, x);
    AboveBelow(links, parents[x]);
    AboveTransitive(links, links[x], parents[x]);
    AboveTransitive(links, x, found);
  }

  lemma UniteKeepsNode(links: seq<nat>, parents: seq<nat>, labels: seq<nat>, sdoms: seq<nat>,
                       node: nat, parent: nat, x: nat)
    requires ForestOk(links, parents, labels, sdoms)
    requires parent < node < |links| && links[node] == node && x < |links|
    ensures ValidLinks(links[node := parent])
    ensures NodeOk(links[node := parent], parents[node := parent], labels, sdoms, x)
  {
    assert NodeOk(links, parents, labels, sdoms, x) && NodeOk(links, parents, labels, sdoms, node);
    AboveAfterUnite(links, node, parent, x);
    AboveAfterUnite(links, node, parent, parent);
    AboveBelow(links, parent);
    if x != node && links[x] != x {
      AboveAfterUnite(links, node, parent, parents[x]);
      AboveAfterUnite(links, node, parent, links[x]);
      AboveBelow(links, x);
      if node in Above(links, x) {
        SharedRoot(links, x, parents[x], node);
        SharedRoot(links, x, labels[x], node);
        AboveBelow(links, labels[x]);
      }
    }
  }

  lemma UniteKeepsForest(links: seq<nat>, parents: seq<nat>, labels: seq<nat>, sdoms: seq<nat>,
                         node: nat, parent: nat)
    requires ForestOk(links, parents, labels, sdoms)
    requires parent < node < |links| && links[node] == node
    ensures ForestOk(links[node := parent], parents[node := parent], labels, sdoms)
  {
    UniteKeepsNode(links, parents, labels, sdoms, node, parent, node);
    var links', parents' := links[node := parent], parents[node := parent];
    forall x: nat | x < |links| ensures NodeOk(links', parents', labels, sdoms, x) {
      UniteKeepsNode(links, parents, labels, sdoms, node, parent, x);
    }
  }

  class DSU {
    ghost var links: seq<nat>
    const parents: array<nat>
    const labels: array<nat>
    /** Shared with the builder, which goes on lowering the entries of roots. */
    const sdoms: array<nat>

    ghost predicate Valid()
      reads this, parents, labels, sdoms
    {
      && parents != labels && parents != sdoms && labels != sdoms
      && ForestOk(links, parents[..], labels[..], sdoms[..])
    }

    constructor (sdoms: array<nat>)
      ensures Valid() && this.sdoms == sdoms && fresh(parents) && fresh(labels)
      ensures |links| == sdoms.Length && forall x :: 0 <= x < |links| ==> links[x] == x
    {
      this.sdoms := sdoms;
      parents := new nat[sdoms.Length](i => i);
      labels := new nat[sdoms.Length](i => i);
      links := seq(sdoms.Length, i => i);
    }

    method Find(toFind: nat) returns (found: nat)
      requires Valid() && toFind < |links|
      modifies parents, labels
      ensures Valid()
      ensures NearestMin(links, sdoms[..], toFind, found)
      ensures labels[toFind] == found
      ensures forall y :: toFind < y < |links| ==> parents[y] == old(parents[y]) && labels[y] == old(labels[y])
      decreases toFind
    {
      assert NodeOk(links, parents[..], labels[..], sdoms[..], toFind);
      var parent := parents[toFind];
      if toFind == parent {
        return toFind;
      }
      found := Find(parent);
      assert NodeOk(links, parents[..], labels[..], sdoms[..], toFind);
      ghost var ps, ls := parents[..], labels[..];
      var parLabel := labels[parent];
      ghost var best := if sdoms[parLabel] < sdoms[labels[toFind]] then parLabel else labels[toFind];
      Compress(links, ps, ls, sdoms[..], toFind, found, best);
      if sdoms[parLabel] < sdoms[labels[toFind]] {
        labels[toFind] := parLabel;
      }
      parents[toFind] := found;
      assert parents[..] == ps[toFind := found] && labels[..] == ls[toFind := best];
      OthersOk(links, ps, ls, sdoms[..], toFind, found, best);
      found := labels[toFind];
    }

    lemma OthersOk(links: seq<nat>, parents: seq<nat>, labels: seq<nat>, sdoms: seq<nat>,
                   x: nat, found: nat, best: nat)
      requires ForestOk(links, parents, labels, sdoms) && x < |links|
      requires NodeOk(links, parents[x := found], labels[x := best], sdoms, x)
      ensures ForestOk(links, parents[x := found], labels[x := best], sdoms)
    {
      var parents', labels' := parents[x := found], labels[x := best];
      forall y: nat | y < |links| ensures NodeOk(links, parents', labels', sdoms, y) {
        assert NodeOk(links, parents, labels, sdoms, y);
      }
    }

    method Unite(node: nat, parent: nat)
      requires Valid() && parent < node < |links| && links[node] == node
      modifies this`links, parents
      ensures Valid() && links == old(links)[node := parent]
    {
      UniteKeepsForest(links, parents[..], labels[..], sdoms[..], node, parent);
      parents[node] := parent;
      links := links[node := parent];
      assert parents[..] == old(parents[..])[node := parent];
    }
  }
}
