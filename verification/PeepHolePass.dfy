/** The peephole pass keeps every run, by what the code is like before it. */
module PeepHolePass {
  import opened Graphs
  import opened Arithmetic
  import opened Occurrences
  import opened Code
  import opened Runs
  import opened Rewriting
  import opened DefUse
  import opened Equivalence
  import opened FoldSteps
  import opened PeepHoles
  import opened PeepHoleProofs

  // ----- what is asked of the code -----

  /** The values a phi takes are among its inputs. */
  ghost predicate EntriesListed(nodes: seq<Node>) {
    forall u: nat, i: nat :: u < |nodes| && nodes[u].op.Phi? && i < |nodes[u].op.entries| ==>
      nodes[u].op.entries[i].val in nodes[u].inputs
  }

  /** Additions, shifts and ors: the operations the pass may take out. */
  predicate MayGo(nodes: seq<Node>, v: nat) {
    v < |nodes| && nodes[v].op.Bin? && (nodes[v].op.oper.Add? || nodes[v].op.oper.Shr? || nodes[v].op.oper.Or?)
  }

  predicate IsNeutral(nodes: seq<Node>, x: nat, v: nat)
    requires x < |nodes| && nodes[x].op.Bin?
  {
    IsZero(nodes, v) || (nodes[x].op.oper.Or? && IsOnes(nodes, v))
  }

  /** `x` keeps its operands, and no rule applies to them. */
  predicate Stays(nodes: seq<Node>, x: nat) {
    && x < |nodes| && nodes[x].op.Bin?
    && (MayGo(nodes, x) ==> forall v :: v in nodes[x].inputs ==> !MayGo(nodes, v) && !IsNeutral(nodes, x, v))
  }

  /** A phi only takes candidates that stay, such as the next value of a loop counter. */
  ghost predicate PhisTakeWhatStays(nodes: seq<Node>, cands: seq<nat>) {
    forall c :: c in cands ==> NoPhiReads(nodes, c) || Stays(nodes, c)
  }

  predicate IsShift(nodes: seq<Node>, x: nat) {
    x < |nodes| && nodes[x].op == Bin(Shr)
  }

  /** Every constant is defined before every shift. */
  ghost predicate ConstantsFirst(g: Graph, entry: nat, l: Listing) {
    forall c: nat, x: nat :: IsConst(l.p.nodes, c) && In(l.p.blocks, l.home, c) && IsShift(l.p.nodes, x)
                             && In(l.p.blocks, l.home, x) ==>
      Above(g, entry, l.p.blocks, l.home, c, x)
  }

  // ----- what the pass keeps -----

  /** Instructions keep their kinds, new ones are additions. */
  ghost predicate SameKinds(nodes: seq<Node>, nodes': seq<Node>) {
    SameShape(nodes, nodes') && forall u :: |nodes| <= u < |nodes'| ==> nodes'[u].op == Bin(Add)
  }

  /** A candidate in no block has been taken out: its inputs are gone. */
  ghost predicate Attached(l: Listing, cands: seq<nat>) {
    forall c :: c in cands ==> c < |l.p.nodes| && (In(l.p.blocks, l.home, c) || l.p.nodes[c].inputs == [])
  }

  ghost predicate KeepsOperands(n: Node, n': Node) {
    n'.inputs == n.inputs || n'.inputs == [] || (|n.inputs| == 2 && n'.inputs == [n.inputs[1], n.inputs[0]])
  }

  ghost predicate OperandsStay(nodes: seq<Node>, nodes': seq<Node>) {
    && |nodes| <= |nodes'|
    && forall c :: 0 <= c < |nodes| && MayGo(nodes, c) && Stays(nodes, c) ==> KeepsOperands(nodes[c], nodes'[c])
  }

  /** What is still in a block was there from the start, in the same order. */
  ghost predicate SameOrder(l: Listing, l': Listing) {
    && |l.home| <= |l'.home| && |l'.p.blocks| == |l.p.blocks|
    && (forall a: nat :: a < |l.home| && In(l'.p.blocks, l'.home, a) ==>
          In(l.p.blocks, l.home, a) && l'.home[a] == l.home[a])
    && (forall a: nat, b: nat :: OrderKept(l, l', a, b))
  }

  ghost predicate OrderKept(l: Listing, l': Listing, a: nat, b: nat) {
    a < |l.home| && b < |l.home| && In(l'.p.blocks, l'.home, a) && In(l'.p.blocks, l'.home, b)
    && In(l.p.blocks, l.home, a) && In(l.p.blocks, l.home, b)
    && l.home[a] == l.home[b] && Precedes(l.p.blocks[l.home[a]], a, b) ==>
      l'.home[a] < |l'.p.blocks| && Precedes(l'.p.blocks[l'.home[a]], a, b)
  }

  ghost predicate PassInv(l0: Listing, cands: seq<nat>, l: Listing) {
    && SameKinds(l0.p.nodes, l.p.nodes) && EntriesListed(l.p.nodes) && Attached(l, cands)
    && OperandsStay(l0.p.nodes, l.p.nodes)
  }

  // ----- swapping -----

  lemma SwapKeeps(l0: Listing, cands: seq<nat>, l: Listing, x: nat)
    requires PassInv(l0, cands, l) && IsLive(l.p.nodes, x)
    ensures PassInv(l0, cands, Swapped(l, x))
  {
    var l' := Swapped(l, x);
    forall c | 0 <= c < |l0.p.nodes| && MayGo(l0.p.nodes, c) && Stays(l0.p.nodes, c)
      ensures KeepsOperands(l0.p.nodes[c], l'.p.nodes[c])
    {
      assert KeepsOperands(l0.p.nodes[c], l.p.nodes[c]);
    }
    forall u: nat, i: nat | u < |l'.p.nodes| && l'.p.nodes[u].op.Phi? && i < |l'.p.nodes[u].op.entries|
      ensures l'.p.nodes[u].op.entries[i].val in l'.p.nodes[u].inputs
    {
      assert l'.p.nodes[u] == l.p.nodes[u];
    }
    forall c | c in cands ensures In(l'.p.blocks, l'.home, c) || l'.p.nodes[c].inputs == [] {
      assert c == x ==> In(l.p.blocks, l.home, x);
    }
  }

  // ----- taking out -----

  /** An instruction a rule applies to is none of those that stay. */
  lemma RuleHitsNoStayer(l0: Listing, l: Listing, x: nat)
    requires SameKinds(l0.p.nodes, l.p.nodes) && OperandsStay(l0.p.nodes, l.p.nodes) && Closed(l0.p.nodes)
    requires IsBin(l.p.nodes, x, Add) || IsBin(l.p.nodes, x, Shr) || IsBin(l.p.nodes, x, Or)
    requires Rule(l.p.nodes, x).Some? || MergeShape(l.p.nodes, x)
    ensures !Stays(l0.p.nodes, x)
  {
    if Stays(l0.p.nodes, x) {
      assert KeepsOperands(l0.p.nodes[x], l.p.nodes[x]);
      var v, w := l.p.nodes[x].inputs[0], l.p.nodes[x].inputs[1];
      assert v in l0.p.nodes[x].inputs && w in l0.p.nodes[x].inputs;
      assert ReadsValue(l0.p.nodes[x], v) && ReadsValue(l0.p.nodes[x], w);
    }
  }

  lemma PhisStay(l0: Listing, nodes: seq<Node>, x: nat)
    requires SameKinds(l0.p.nodes, nodes) && NoPhiReads(l0.p.nodes, x)
    ensures NoPhiReads(nodes, x)
  {
    forall u: nat, i: nat | u < |nodes| && nodes[u].op.Phi? && i < |nodes[u].op.entries|
      ensures nodes[u].op.entries[i].val != x
    {
      assert u < |l0.p.nodes| && nodes[u].op == l0.p.nodes[u].op;
    }
  }

  lemma RemovedKeeps(l0: Listing, cands: seq<nat>, l: Listing, l': Listing, x: nat, y: nat)
    requires PassInv(l0, cands, l) && Removed(l, l', x, y) && NoPhiReads(l.p.nodes, x) && Closed(l0.p.nodes)
    requires MayGo(l.p.nodes, x) && !Stays(l0.p.nodes, x)
    requires Placed(l.p.blocks, l.home)
    ensures PassInv(l0, cands, l')
  {
    RemovedEntries(l, l', x, y);
    forall c | 0 <= c < |l0.p.nodes| && MayGo(l0.p.nodes, c) && Stays(l0.p.nodes, c)
      ensures KeepsOperands(l0.p.nodes[c], l'.p.nodes[c])
    {
      assert KeepsOperands(l0.p.nodes[c], l.p.nodes[c]);
      StayerReadsNoGoer(l0, l, c, x);
      RedirectNone(l.p.nodes[c].inputs, x, y);
    }
    KeptAtHome(l.p.blocks, l.home, x);
    forall c | c in cands ensures In(l'.p.blocks, l'.home, c) || l'.p.nodes[c].inputs == [] {
      InKept(l.p.blocks, l.home, x, c);
      RedirectAt(l.p.nodes[c].inputs, x, y);
    }
  }

  lemma RemovedEntries(l: Listing, l': Listing, x: nat, y: nat)
    requires EntriesListed(l.p.nodes) && Removed(l, l', x, y) && NoPhiReads(l.p.nodes, x) && !l.p.nodes[x].op.Phi?
    ensures EntriesListed(l'.p.nodes)
  {
    forall u: nat, i: nat | u < |l'.p.nodes| && l'.p.nodes[u].op.Phi? && i < |l'.p.nodes[u].op.entries|
      ensures l'.p.nodes[u].op.entries[i].val in l'.p.nodes[u].inputs
    {
      RedirectMembers(l.p.nodes[u].inputs, x, y, l.p.nodes[u].op.entries[i].val);
    }
  }

  lemma StayerReadsNoGoer(l0: Listing, l: Listing, c: nat, x: nat)
    requires SameKinds(l0.p.nodes, l.p.nodes) && c < |l0.p.nodes| && Stays(l0.p.nodes, c) && Closed(l0.p.nodes)
    requires KeepsOperands(l0.p.nodes[c], l.p.nodes[c]) && MayGo(l.p.nodes, x) && MayGo(l0.p.nodes, c)
    ensures x !in l.p.nodes[c].inputs
  {
    if x in l.p.nodes[c].inputs {
      assert x in l0.p.nodes[c].inputs;
      assert ReadsValue(l0.p.nodes[c], x);
    }
  }

  // ----- merging -----

  /** Every phi lists its entries, so what only a shift reads no phi takes. */
  lemma OnlyReadByShift(nodes: seq<Node>, x: nat)
    requires EntriesListed(nodes) && OnlyReader(nodes, x) && IsBin(nodes, x, Shr)
    ensures NoPhiReads(nodes, nodes[x].inputs[0])
  {
  }

  lemma MergedKeeps(l0: Listing, cands: seq<nat>, l: Listing, l': Listing, x: nat)
    requires PassInv(l0, cands, l) && MergeShape(l.p.nodes, x) && Merged(l, l', x) && Closed(l0.p.nodes)
    requires Closed(l.p.nodes) && Placed(l.p.blocks, l.home) && !Stays(l0.p.nodes, x)
    requires In(l.p.blocks, l.home, l.p.nodes[x].inputs[0])
    ensures PassInv(l0, cands, l')
  {
    var fst, n := l.p.nodes[x].inputs[0], |l.p.nodes|;
    forall c | 0 <= c < |l0.p.nodes| && MayGo(l0.p.nodes, c) && Stays(l0.p.nodes, c)
      ensures KeepsOperands(l0.p.nodes[c], l'.p.nodes[c])
    {
      assert KeepsOperands(l0.p.nodes[c], l.p.nodes[c]);
    }
    MergedEntries(l, l', x);
    forall c | c in cands ensures In(l'.p.blocks, l'.home, c) || l'.p.nodes[c].inputs == [] {
      MergedMembers(l, l', x, c);
    }
  }

  lemma MergedEntries(l: Listing, l': Listing, x: nat)
    requires EntriesListed(l.p.nodes) && MergeShape(l.p.nodes, x) && Merged(l, l', x)
    ensures EntriesListed(l'.p.nodes)
  {
    forall u: nat, i: nat | u < |l'.p.nodes| && l'.p.nodes[u].op.Phi? && i < |l'.p.nodes[u].op.entries|
      ensures l'.p.nodes[u].op.entries[i].val in l'.p.nodes[u].inputs
    {
      assert u < |l.p.nodes| && l'.p.nodes[u] == l.p.nodes[u];
    }
  }

  /** Besides the first shift every old instruction stays in its block, with the others in the same order. */
  lemma MergedMembers(l: Listing, l': Listing, x: nat, c: nat)
    requires MergeShape(l.p.nodes, x) && Merged(l, l', x) && Placed(l.p.blocks, l.home) && c < |l.home|
    requires In(l.p.blocks, l.home, l.p.nodes[x].inputs[0])
    ensures l'.home[c] == l.home[c]
    ensures In(l'.p.blocks, l'.home, c) <==> In(l.p.blocks, l.home, c) && c != l.p.nodes[x].inputs[0]
  {
    var fst, n := l.p.nodes[x].inputs[0], |l.p.nodes|;
    var list := l.p.blocks[l.home[fst]];
    if l.home[c] == l.home[fst] {
      InsertedMembers(list, fst, n, c);
      KeepMembers(InsertBefore(list, fst, n), {fst}, c);
    }
  }

  // ----- order -----

  lemma RemovedOrder(l: Listing, l': Listing, x: nat, y: nat)
    requires Removed(l, l', x, y) && Placed(l.p.blocks, l.home)
    ensures SameOrder(l, l')
  {
    KeptAtHome(l.p.blocks, l.home, x);
    forall a: nat | a < |l.home| && In(l'.p.blocks, l'.home, a) ensures In(l.p.blocks, l.home, a) && a != x {
      InKept(l.p.blocks, l.home, x, a);
    }
    forall a: nat, b: nat ensures OrderKept(l, l', a, b) {
      if a < |l.home| && b < |l.home| && In(l'.p.blocks, l'.home, a) && In(l'.p.blocks, l'.home, b) {
        KeepsOrder(l.p.blocks[l.home[a]], {x}, a, b);
      }
    }
  }

  lemma MergedOrder(l: Listing, l': Listing, x: nat)
    requires MergeShape(l.p.nodes, x) && Merged(l, l', x) && Placed(l.p.blocks, l.home)
    requires In(l.p.blocks, l.home, l.p.nodes[x].inputs[0])
    ensures SameOrder(l, l')
  {
    var fst, n := l.p.nodes[x].inputs[0], |l.p.nodes|;
    var list := l.p.blocks[l.home[fst]];
    forall a: nat | a < |l.home| && In(l'.p.blocks, l'.home, a)
      ensures In(l.p.blocks, l.home, a) && a != fst && l'.home[a] == l.home[a]
    {
      MergedMembers(l, l', x, a);
    }
    KeepInserted(list, fst, n);
    forall a: nat, b: nat ensures OrderKept(l, l', a, b) {
      if a < |l.home| && b < |l.home| && In(l'.p.blocks, l'.home, a) && In(l'.p.blocks, l'.home, b) {
        KeepsOrder(InsertBefore(list, fst, n), {n}, a, b);
        KeepsOrder(InsertBefore(list, fst, n), {fst}, a, b);
      }
    }
  }

  lemma OrderTransitive(a: Listing, b: Listing, c: Listing)
    requires SameOrder(a, b) && SameOrder(b, c)
    ensures SameOrder(a, c)
  {
    forall u: nat, v: nat ensures OrderKept(a, c, u, v) {
      assert OrderKept(a, b, u, v) && OrderKept(b, c, u, v);
    }
  }

  // ----- the pass -----

  /** At this step the pass merges two shifts. */
  ghost predicate MergesAt(mid: Listing, l': Listing, x: nat) {
    l' != mid && Rule(mid.p.nodes, x).None? && MergeShape(mid.p.nodes, x)
  }

  /** Amounts that are added are in range and so is their sum, and the second one is defined early enough. */
  ghost predicate MayMerge(g: Graph, entry: nat, l0: Listing, mid: Listing, x: nat)
    requires MergeShape(mid.p.nodes, x)
  {
    && SumInRange(mid.p.nodes, x, mid.p.nodes[x].inputs[0])
    && (ConstantsFirst(g, entry, l0) || AmountAbove(g, entry, mid, x, mid.p.nodes[x].inputs[0]))
  }

  lemma AmountIsAbove(g: Graph, entry: nat, l0: Listing, mid: Listing, x: nat)
    requires Good(g, entry, mid) && SameKinds(l0.p.nodes, mid.p.nodes) && SameOrder(l0, mid)
             && |l0.home| == |l0.p.nodes|
    requires MergeShape(mid.p.nodes, x) && In(mid.p.blocks, mid.home, x) && ConstantsFirst(g, entry, l0)
    ensures AmountAbove(g, entry, mid, x, mid.p.nodes[x].inputs[0])
  {
    var fst, c := mid.p.nodes[x].inputs[0], mid.p.nodes[x].inputs[1];
    assert fst in Kills(mid.p.nodes, x) && c in Kills(mid.p.nodes, x);
    assert Above(g, entry, mid.p.blocks, mid.home, fst, x) && Above(g, entry, mid.p.blocks, mid.home, c, x);
    assert fst < |l0.p.nodes| && c < |l0.p.nodes|;
    assert IsConst(l0.p.nodes, c) && IsShift(l0.p.nodes, fst) by {
      assert mid.p.nodes[fst].op == l0.p.nodes[fst].op;
    }
    assert Above(g, entry, l0.p.blocks, l0.home, c, fst);
    assert OrderKept(l0, mid, c, fst);
  }

  /** What goes stands in a block, and no phi takes it. */
  lemma StepIsClean(g: Graph, entry: nat, l0: Listing, cands: seq<nat>, mid: Listing, l': Listing, x: nat)
    requires Good(g, entry, mid) && |l0.home| == |l0.p.nodes| && Closed(l0.p.nodes)
    requires PassInv(l0, cands, mid) && SameOrder(l0, mid) && PhisTakeWhatStays(l0.p.nodes, cands)
    requires Rule(mid.p.nodes, x).Some? || (MergeShape(mid.p.nodes, x) && OnlyReader(mid.p.nodes, x))
    requires x in cands && IsLive(mid.p.nodes, x)
    requires MergesAt(mid, l', x) ==> MayMerge(g, entry, l0, mid, x)
    requires l' != mid
    ensures Clean(g, entry, mid, x)
    ensures !Stays(l0.p.nodes, x)
  {
    if Rule(mid.p.nodes, x).Some? {
      RuleHitsNoStayer(l0, mid, x);
      PhisStay(l0, mid.p.nodes, x);
    } else {
      RuleHitsNoStayer(l0, mid, x);
      OnlyReadByShift(mid.p.nodes, x);
      assert mid.p.nodes[x].inputs[0] in Kills(mid.p.nodes, x);
      if ConstantsFirst(g, entry, l0) {
        AmountIsAbove(g, entry, l0, mid, x);
      }
    }
  }

  /** One candidate: the runs stay the same, and so does what the next candidate relies on. */
  lemma StepKeeps(g: Graph, entry: nat, l0: Listing, cands: seq<nat>, l: Listing, mid: Listing, l': Listing, x: nat)
    returns (steps: seq<Listing>)
    requires Good(g, entry, l) && WellTyped(l.p.nodes) && |l0.home| == |l0.p.nodes| && Closed(l0.p.nodes)
    requires PassInv(l0, cands, l) && SameOrder(l0, l) && PhisTakeWhatStays(l0.p.nodes, cands) && x in cands
    requires FoldStep(l, mid, l', x) && (MergesAt(mid, l', x) ==> MayMerge(g, entry, l0, mid, x))
    ensures Chain(g, entry, l, steps, l') && Good(g, entry, l') && WellTyped(l'.p.nodes)
    ensures PassInv(l0, cands, l') && SameOrder(l0, l')
  {
    if mid != l {
      SwapPreserves(g, entry, l, x);
      SwapKeeps(l0, cands, l, x);
      SwapOrder(l, x);
      OrderTransitive(l0, l, mid);
    }
    if l' != mid {
      StepIsClean(g, entry, l0, cands, mid, l', x);
      ChangeKeeps(l0, cands, mid, l', x);
      OrderTransitive(l0, mid, l');
    }
    steps := FoldPreserves(g, entry, l, mid, l', x);
  }

  lemma SwapOrder(l: Listing, x: nat)
    requires x < |l.p.nodes| && |l.p.nodes[x].inputs| == 2
    ensures SameOrder(l, Swapped(l, x))
  {
  }

  lemma ChangeKeeps(l0: Listing, cands: seq<nat>, mid: Listing, l': Listing, x: nat)
    requires PassInv(l0, cands, mid) && Closed(l0.p.nodes) && Closed(mid.p.nodes) && Placed(mid.p.blocks, mid.home)
    requires IsLive(mid.p.nodes, x) && !Stays(l0.p.nodes, x)
    requires (Rule(mid.p.nodes, x).Some? && Removed(mid, l', x, Rule(mid.p.nodes, x).value)
             && NoPhiReads(mid.p.nodes, x))
             || (MergeShape(mid.p.nodes, x) && Merged(mid, l', x)
                && In(mid.p.blocks, mid.home, mid.p.nodes[x].inputs[0]))
    ensures PassInv(l0, cands, l') && SameOrder(mid, l')
  {
    if Rule(mid.p.nodes, x).Some? && Removed(mid, l', x, Rule(mid.p.nodes, x).value) && NoPhiReads(mid.p.nodes, x) {
      RemovedKeeps(l0, cands, mid, l', x, Rule(mid.p.nodes, x).value);
      RemovedOrder(mid, l', x, Rule(mid.p.nodes, x).value);
    } else {
      MergedKeeps(l0, cands, mid, l', x);
      MergedOrder(mid, l', x);
    }
  }

  /** After the pass every run is as before: through the same blocks to the same end with the same world. */
  lemma {:induction false} PassPreserves(g: Graph, entry: nat, all: seq<nat>, trace: seq<Listing>, mids: seq<Listing>,
                                         cands: seq<nat>)
    returns (steps: seq<Listing>)
    requires FoldTrace(trace, mids, cands) && Good(g, entry, trace[0]) && WellTyped(trace[0].p.nodes)
    requires PassInv(trace[0], all, trace[0]) && PhisTakeWhatStays(trace[0].p.nodes, all)
    requires forall x :: x in cands ==> x in all
    requires forall i :: 0 <= i < |cands| && MergesAt(mids[i], trace[i + 1], cands[i]) ==>
        MayMerge(g, entry, trace[0], mids[i], cands[i])
    ensures Chain(g, entry, trace[0], steps, trace[|cands|])
    ensures Good(g, entry, trace[|cands|]) && WellTyped(trace[|cands|].p.nodes)
    ensures PassInv(trace[0], all, trace[|cands|]) && SameOrder(trace[0], trace[|cands|])
  {
    if cands == [] {
      steps := [];
    } else {
      var n := |cands| - 1;
      assert forall i :: 0 <= i <= n ==> trace[..n + 1][i] == trace[i];
      var front := PassPreserves(g, entry, all, trace[..n + 1], mids[..n], cands[..n]);
      var back := StepKeeps(g, entry, trace[0], all, trace[n], mids[n], trace[n + 1], cands[n]);
      JoinChains(g, entry, trace[0], front, trace[n], back, trace[n + 1]);
      steps := front + back;
    }
  }

  lemma CandidatesStand(l: Listing, rpo: seq<nat>)
    requires |l.home| == |l.p.nodes| && Placed(l.p.blocks, l.home)
    ensures Attached(l, Bins(l.p.nodes, Flat(l.p.blocks, rpo)))
  {
    forall c | c in Bins(l.p.nodes, Flat(l.p.blocks, rpo)) ensures c < |l.p.nodes| && In(l.p.blocks, l.home, c) {
      BinsMembers(l.p.nodes, Flat(l.p.blocks, rpo), c);
      var t := FlatMember(l.p.blocks, rpo, c);
      var i :| 0 <= i < |Block(l.p.blocks, rpo[t])| && Block(l.p.blocks, rpo[t])[i] == c;
      MemberIsIn(l.p.blocks, l.home, rpo[t], i);
    }
  }

  /** The pass as `PeepHoles.Run` describes it keeps every run on every machine, if phis list their entries and
      take none of the candidates but those that stay, and merged amounts are in range. */
  lemma PeepHolePreservesRuns<W(!new)>(m: Machine<W>, g: Graph, entry: nat, trace: seq<Listing>, mids: seq<Listing>,
                                       cands: seq<nat>, rpo: seq<nat>, s: State<W>, n: nat)
    requires FoldTrace(trace, mids, cands) && cands == Bins(trace[0].p.nodes, Flat(trace[0].p.blocks, rpo))
    requires Good(g, entry, trace[0]) && WellTyped(trace[0].p.nodes) && EntriesListed(trace[0].p.nodes)
    requires PhisTakeWhatStays(trace[0].p.nodes, cands)
    requires forall i :: 0 <= i < |cands| && MergesAt(mids[i], trace[i + 1], cands[i]) ==>
        MayMerge(g, entry, trace[0], mids[i], cands[i])
    ensures Observe(RunFor(m, g, entry, trace[|cands|].p, s, n)) == Observe(RunFor(m, g, entry, trace[0].p, s, n))
  {
    CandidatesStand(trace[0], rpo);
    var steps := PassPreserves(g, entry, cands, trace, mids, cands);
    ChainPreserves(m, g, entry, trace[0], steps, trace[|cands|], s, n);
  }
}
