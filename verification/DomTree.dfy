/** The dominator-tree builder: semidominators over the forest, idoms, the tree. */
module DomTrees {
  // Nodes are named by their DFS time throughout; `preds` are the predecessor lists in these names.

  import opened DomSpec
  import opened Dsu

  /** Every vertex after `lo` is linked to the one before it, the others are roots. */
  ghost predicate ChainLinks(links: seq<nat>, lo: nat) {
    forall q :: 0 <= q < |links| ==> links[q] == if q > lo then q - 1 else q
  }

  lemma {:induction false} AboveIsChain(links: seq<nat>, lo: nat, x: nat)
    requires ChainLinks(links, lo) && ValidLinks(links) && x < |links|
    ensures x <= lo ==> Above(links, x) == {x}
    ensures lo <= x ==> forall y :: y in Above(links, x) <==> lo <= y <= x
  {
    if lo < x {
      AboveIsChain(links, lo, x - 1);
    }
  }

  /** From `lo` on the semidominators are known, before `lo` each is the node itself. */
  ghost predicate Labelled(preds: seq<seq<nat>>, sdoms: seq<nat>, lo: nat)
    requires ValidPreds(preds)
  {
    && |sdoms| == |preds|
    && (forall q :: lo <= q < |preds| ==> sdoms[q] == Sdom(preds, q))
    && (forall q :: 0 <= q < lo && q < |preds| ==> sdoms[q] == q)
  }

  /** What the forest finds is the specified place of the least semidominator. */
  lemma FindsArgMin(preds: seq<seq<nat>>, links: seq<nat>, sdoms: seq<nat>, lo: nat, x: nat, r: nat)
    requires ValidPreds(preds) && Labelled(preds, sdoms, lo) && |links| == |preds| && lo <= x < |preds|
    requires ChainLinks(links, lo) && ValidLinks(links) && NearestMin(links, sdoms, x, r)
    ensures r == ArgMin(preds, lo, x)
  {
    AboveIsChain(links, lo, x);
    var m := ArgMin(preds, lo, x);
    ArgMinIsNearest(preds, lo, x, r);
    assert m in Above(links, x);
  }

  /** One predecessor `p` of `t`: the minimum over its chain, which ends in `t`, against the value of `t`. */
  lemma FindsPredMin(preds: seq<seq<nat>>, links: seq<nat>, sdoms: seq<nat>, t: nat, p: nat, r: nat)
    requires ValidPreds(preds) && |links| == |preds| == |sdoms| && t < |preds| && p < |preds|
    requires forall q :: t < q < |preds| ==> sdoms[q] == Sdom(preds, q)
    requires forall q :: 0 <= q < t ==> sdoms[q] == q
    requires sdoms[t] <= t
    requires ChainLinks(links, t) && ValidLinks(links) && NearestMin(links, sdoms, p, r)
    ensures Min(sdoms[t], sdoms[r]) == Min(sdoms[t], if p <= t then p else ChainMin(preds, t + 1, p))
  {
    AboveIsChain(links, t, p);
    if p > t {
      var y := ChainMinIsTaken(preds, t + 1, p);
      assert y in Above(links, p) && t in Above(links, p);
      if r > t {
        ChainMinIsLeast(preds, t + 1, p, r);
      }
    }
  }

  class DomTreeBuilder {
    const preds: seq<seq<nat>>
    const sdoms: array<nat>
    const idoms: array<nat>
    var dfsParents: seq<nat>
    /** For each node the later nodes whose semidominator it is. */
    var sdommed: seq<seq<nat>>
    /** The tree: the nodes a node immediately dominates; nodes without any are not listed. */
    var tree: map<nat, seq<nat>>

    ghost predicate Shape()
      reads this
    {
      && ValidPreds(preds) && Discovered(preds) && sdoms != idoms
      && sdoms.Length == idoms.Length == |preds| == |dfsParents| == |sdommed|
      && (forall q :: 0 < q < |preds| ==> dfsParents[q] == q - 1)
    }

    /** The forest and the builder at the node `lo`: all later nodes are linked. */
    ghost predicate Linked(dsu: DSU, lo: nat)
      reads this, dsu, dsu.parents, dsu.labels, dsu.sdoms
    {
      && dsu.Valid() && dsu.sdoms == sdoms && |dsu.links| == |preds| && ChainLinks(dsu.links, lo)
      && idoms != dsu.parents && idoms != dsu.labels
    }

    constructor (preds: seq<seq<nat>>)
      requires ValidPreds(preds) && Discovered(preds) && |preds| > 0
      ensures this.preds == preds && fresh(sdoms) && fresh(idoms)
      ensures sdoms.Length == idoms.Length == |preds|
      ensures forall v :: 0 <= v < |preds| ==> sdoms[v] == Sdom(preds, v) && idoms[v] == Idom(preds, v)
      ensures IsTree(preds, tree)
    {
      this.preds := preds;
      sdoms := new nat[|preds|](i => i);
      idoms := new nat[|preds|](i => i);
      dfsParents := seq(|preds|, i requires 0 <= i => if i == 0 then 0 else i - 1);
      sdommed := seq(|preds|, i => []);
      tree := map[];
      new;
      CalcSdoms();
      CalcIdoms();
    }

    method FindMinSdom(node: nat, dsu: DSU) returns (sdom: nat)
      requires Shape() && node < |preds| && Linked(dsu, node) && Labelled(preds, sdoms[..], node + 1)
      modifies sdoms, dsu.parents, dsu.labels
      ensures Linked(dsu, node) && Labelled(preds, sdoms[..], node) && sdom == Sdom(preds, node)
      ensures idoms[..] == old(idoms[..])
    {
      for j := 0 to |preds[node]|
        invariant Linked(dsu, node) && idoms[..] == old(idoms[..])
        invariant sdoms[node] == SdomFrom(preds, node, j)
        invariant forall q :: 0 <= q < |preds| && q != node ==> sdoms[q] == old(sdoms[q])
      {
        var found := dsu.Find(preds[node][j]);
        SdomIsBelow(preds, node, j);
        FindsPredMin(preds, dsu.links, sdoms[..], node, preds[node][j], found);
        Lower(node, sdoms[found], dsu);
      }
      sdom := sdoms[node];
    }

    method Lower(node: nat, found: nat, dsu: DSU)
      requires Shape() && node < |preds| && Linked(dsu, node)
      modifies sdoms
      ensures sdoms[..] == old(sdoms[..])[node := Min(old(sdoms[node]), found)]
      ensures Linked(dsu, node)
    {
      var sdom := Min(sdoms[node], found);
      RootDecreases(dsu.links, dsu.parents[..], dsu.labels[..], sdoms[..], node, sdom);
      sdoms[node] := sdom;
      assert sdoms[..] == old(sdoms[..])[node := sdom];
    }

    method FillIdoms(node: nat, dsu: DSU)
      requires Shape() && node < |preds| && Linked(dsu, node) && Labelled(preds, sdoms[..], node)
      requires forall v :: v in sdommed[node] ==> node < v < |preds| && Sdom(preds, v) == node
      modifies idoms, dsu.parents, dsu.labels
      ensures Linked(dsu, node) && sdoms[..] == old(sdoms[..])
      ensures forall v :: 0 <= v < |preds| ==>
          idoms[v] == if v in sdommed[node] then FirstIdom(preds, v) else old(idoms[v])
    {
      for i := 0 to |sdommed[node]|
        invariant Linked(dsu, node) && sdoms[..] == old(sdoms[..])
        invariant forall v :: 0 <= v < |preds| ==>
            idoms[v] == if v in sdommed[node][..i] then FirstIdom(preds, v) else old(idoms[v])
      {
        var dominatee := sdommed[node][i];
        assert dominatee in sdommed[node];
        var minSdom := dsu.Find(dominatee);
        FindsArgMin(preds, dsu.links, sdoms[..], node, dominatee, minSdom);
        idoms[dominatee] := if sdoms[dominatee] == sdoms[minSdom] then sdoms[dominatee] else minSdom;
      }
      assert sdommed[node][..|sdommed[node]|] == sdommed[node];
    }

    /** The nodes from `lo` on are filed under their semidominators. */
    ghost predicate Filed(lo: nat)
      requires Shape()
      reads this
    {
      forall q, v :: 0 <= q < |preds| ==> (v in sdommed[q] <==> lo <= v < |preds| && v > 0 && Sdom(preds, v) == q)
    }

    method CalcSdoms()
      requires Shape() && Labelled(preds, sdoms[..], |preds|) && Filed(|preds|)
      requires forall v :: 0 <= v < |preds| ==> idoms[v] == v
      modifies sdoms, idoms, this`sdommed
      ensures Shape() && Labelled(preds, sdoms[..], 0)
      ensures forall v :: 0 <= v < |preds| ==> idoms[v] == FirstIdom(preds, v)
    {
      var dsu := new DSU(sdoms);
      var t: nat := |preds|;
      while t > 0
        invariant t <= |preds| && Shape() && fresh(dsu) && fresh(dsu.parents) && fresh(dsu.labels)
        invariant Linked(dsu, if t == 0 then 0 else t - 1)
        invariant Labelled(preds, sdoms[..], t) && Filed(t)
        invariant FirstDone(t)
      {
        t := t - 1;
        CalcSdom(t, dsu);
      }
      forall v | 0 <= v < |preds| ensures idoms[v] == FirstIdom(preds, v) {
        SdomIsBelow(preds, v, |preds[v]|);
      }
    }

    /** The first values are stored for the nodes whose semidominator is not before `lo`. */
    ghost predicate FirstDone(lo: nat)
      requires Shape()
      reads this, idoms
    {
      forall v :: 0 <= v < |preds| ==>
          idoms[v] == if v > 0 && Sdom(preds, v) >= lo then FirstIdom(preds, v) else v
    }

    method CalcSdom(node: nat, dsu: DSU)
      requires Shape() && node < |preds| && Linked(dsu, node) && Labelled(preds, sdoms[..], node + 1)
      requires Filed(node + 1) && FirstDone(node + 1)
      modifies sdoms, idoms, dsu`links, dsu.parents, dsu.labels, this`sdommed
      ensures Shape() && Linked(dsu, if node == 0 then 0 else node - 1)
      ensures Labelled(preds, sdoms[..], node) && Filed(node) && FirstDone(node)
    {
      var sdom := FindMinSdom(node, dsu);
      File(node, sdom);
      FillIdoms(node, dsu);
      FirstDoneAt(node, old(idoms[..]));
      if node != 0 {
        dsu.Unite(node, dfsParents[node]);
      }
    }

    method File(node: nat, sdom: nat)
      requires Shape() && node < |preds| && Filed(node + 1) && sdom == Sdom(preds, node)
      modifies this`sdommed
      ensures Shape() && Filed(node)
      ensures forall v :: v in sdommed[node] <==> node < v < |preds| && Sdom(preds, v) == node
    {
      SdomIsBelow(preds, node, |preds[node]|);
      if node != 0 {
        SdomIsEarlier(preds, node);
        sdommed := sdommed[sdom := sdommed[sdom] + [node]];
      }
    }

    lemma FirstDoneAt(node: nat, before: seq<nat>)
      requires Shape() && node < |preds| == |before|
      requires forall v :: 0 <= v < |preds| ==>
          before[v] == if v > 0 && Sdom(preds, v) >= node + 1 then FirstIdom(preds, v) else v
      requires forall v :: v in sdommed[node] <==> node < v < |preds| && Sdom(preds, v) == node
      requires forall v :: 0 <= v < |preds| ==>
          idoms[v] == if v in sdommed[node] then FirstIdom(preds, v) else before[v]
      ensures FirstDone(node)
    {
      forall v | 0 <= v < |preds| && v > 0 ensures v in sdommed[node] <==> Sdom(preds, v) == node {
        SdomIsEarlier(preds, v);
      }
    }

    method CalcIdoms()
      requires Shape() && Labelled(preds, sdoms[..], 0) && tree == map[] && |preds| > 0
      requires forall v :: 0 <= v < |preds| ==> idoms[v] == FirstIdom(preds, v)
      modifies idoms, this`tree
      ensures forall v :: 0 <= v < |preds| ==> idoms[v] == Idom(preds, v)
      ensures IsTree(preds, tree)
    {
      for v := 1 to |preds|
        invariant forall u :: 0 <= u < |preds| ==> idoms[u] == if u < v then Idom(preds, u) else FirstIdom(preds, u)
        invariant IsTreeUpTo(preds, tree, v)
      {
        CalcIdom(v);
        TreeGrows(preds, tree, v);
        tree := AddDommed(tree, idoms[v], v);
      }
    }

    method CalcIdom(v: nat)
      requires Shape() && 0 < v < |preds| && Labelled(preds, sdoms[..], 0)
      requires forall u :: 0 <= u < |preds| ==> idoms[u] == if u < v then Idom(preds, u) else FirstIdom(preds, u)
      modifies idoms
      ensures sdoms[..] == old(sdoms[..])
      ensures forall u :: 0 <= u < |preds| ==> idoms[u] == if u <= v then Idom(preds, u) else FirstIdom(preds, u)
    {
      SdomIsEarlier(preds, v);
      IdomIsEarlier(preds, v);
      if idoms[v] != sdoms[v] {
        idoms[v] := idoms[idoms[v]];
      }
    }
  }

  function Children(tree: map<nat, seq<nat>>, d: nat): seq<nat> {
    if d in tree then tree[d] else []
  }

  /** `node` is added to the nodes `idom` immediately dominates. */
  function AddDommed(tree: map<nat, seq<nat>>, idom: nat, node: nat): map<nat, seq<nat>> {
    tree[idom := Children(tree, idom) + [node]]
  }

  /** Each of the nodes `1 .. n` is listed under its idom, and once. */
  ghost predicate IsTreeUpTo(preds: seq<seq<nat>>, tree: map<nat, seq<nat>>, n: nat)
    requires ValidPreds(preds) && n <= |preds|
  {
    forall d, v :: Listed(preds, tree, n, d, v)
  }

  ghost predicate Listed(preds: seq<seq<nat>>, tree: map<nat, seq<nat>>, n: nat, d: nat, v: nat)
    requires ValidPreds(preds) && n <= |preds|
  {
    multiset(Children(tree, d))[v] == if 0 < v < n && Idom(preds, v) == d then 1 else 0
  }

  lemma TreeGrows(preds: seq<seq<nat>>, tree: map<nat, seq<nat>>, v: nat)
    requires ValidPreds(preds) && 0 < v < |preds| && IsTreeUpTo(preds, tree, v)
    ensures IsTreeUpTo(preds, AddDommed(tree, Idom(preds, v), v), v + 1)
  {
    var tree', n := AddDommed(tree, Idom(preds, v), v), v + 1;
    forall d: nat, u: nat ensures Listed(preds, tree', n, d, u) {
      assert Listed(preds, tree, v, d, u);
    }
  }

  ghost predicate IsTree(preds: seq<seq<nat>>, tree: map<nat, seq<nat>>)
    requires ValidPreds(preds)
  {
    IsTreeUpTo(preds, tree, |preds|)
  }
}
