/** The peephole pass: additions of zero, shifts by zero, shifts of shifts, or with zero and with ones. */
module PeepHoles {
  import opened Wrappers
  import opened FiniteSets
  import opened Graphs
  import opened Dfs
  import opened Arithmetic
  import opened Occurrences
  import opened Code
  import opened DefUse
  import opened Equivalence
  import opened FoldSteps

  /** The constant is 0 or has all bits set. */
  predicate IsZero(nodes: seq<Node>, v: nat) {
    IsConst(nodes, v) && nodes[v].op.value == 0
  }

  predicate IsOnes(nodes: seq<Node>, v: nat) {
    IsConst(nodes, v) && nodes[v].op.value == Ones(nodes[v].ty)
  }

  predicate IsBin(nodes: seq<Node>, x: nat, oper: Oper) {
    x < |nodes| && nodes[x].op == Bin(oper) && |nodes[x].inputs| == 2
  }

  /** The operand of `x` that its users get instead, by the rules for zero and ones. */
  function Rule(nodes: seq<Node>, x: nat): Option<nat> {
    if !(IsBin(nodes, x, Add) || IsBin(nodes, x, Shr) || IsBin(nodes, x, Or)) then None
    else if IsZero(nodes, nodes[x].inputs[1]) then Some(nodes[x].inputs[0])
    else if nodes[x].op.oper.Or? && IsOnes(nodes, nodes[x].inputs[1]) then Some(nodes[x].inputs[1])
    else None
  }

  /** The rule for a shift by a constant of a shift by a constant ... */
  predicate MergeShape(nodes: seq<Node>, x: nat) {
    && IsBin(nodes, x, Shr) && IsConst(nodes, nodes[x].inputs[1]) && !IsZero(nodes, nodes[x].inputs[1])
    && IsBin(nodes, nodes[x].inputs[0], Shr)
    && IsConst(nodes, nodes[nodes[x].inputs[0]].inputs[1])
  }

  /** ... that nobody else uses. */
  predicate MergeRule(nodes: seq<Node>, users: seq<set<nat>>, x: nat) {
    MergeShape(nodes, x) && nodes[x].inputs[0] < |users| && |users[nodes[x].inputs[0]]| <= 1
  }

  ghost predicate OnlyReader(nodes: seq<Node>, x: nat) {
    x < |nodes| && |nodes[x].inputs| > 0 &&
    forall u: nat :: u < |nodes| && nodes[x].inputs[0] in nodes[u].inputs ==> u == x
  }

  /** The users of `x` read `y`, and `x` is gone. */
  ghost predicate Removed(l: Listing, l': Listing, x: nat, y: nat) {
    && x < |l.p.nodes| == |l'.p.nodes| && l'.home == l.home && x < |l.home| && l.home[x] < |l.p.blocks|
    && (forall u :: 0 <= u < |l.p.nodes| ==>
          l'.p.nodes[u] == if u == x
            then RedirectNode(l.p.nodes[u], x, y).(inputs := []) else RedirectNode(l.p.nodes[u], x, y))
    && l'.p.blocks == l.p.blocks[l.home[x] := Keep(l.p.blocks[l.home[x]], {x})]
  }

  /** The two shifts have become one shift by a sum, which stands where the first one stood. */
  ghost predicate Merged(l: Listing, l': Listing, x: nat) {
    && IsBin(l.p.nodes, x, Shr) && IsBin(l.p.nodes, l.p.nodes[x].inputs[0], Shr)
    && var fst := l.p.nodes[x].inputs[0];
       var n := |l.p.nodes|;
       && fst < |l.home| == n && l.home[fst] < |l.p.blocks| && x != fst && l.p.nodes[x].inputs[1] < n
       && l'.p.nodes == l.p.nodes[x := l.p.nodes[x].(inputs := [l.p.nodes[fst].inputs[0], n])]
                                 [fst := l.p.nodes[fst].(inputs := [])]
                        + [Node(Bin(Add), l.p.nodes[l.p.nodes[x].inputs[1]].ty,
                                [l.p.nodes[fst].inputs[1], l.p.nodes[x].inputs[1]])]
       && l'.home == l.home + [l.home[fst]]
       && l'.p.blocks == l.p.blocks[l.home[fst] := Keep(InsertBefore(l.p.blocks[l.home[fst]], fst, n), {fst})]
  }

  ghost function ListingOf(body: Body): Listing
    reads body
  {
    Listing(Program(body.nodes, body.blocks), body.home)
  }

  /** A binary operation that has not been taken out and does not read itself. */
  predicate IsLive(nodes: seq<Node>, x: nat) {
    x < |nodes| && nodes[x].op.Bin? && |nodes[x].inputs| == 2 && x !in nodes[x].inputs
  }

  ghost predicate Usable(body: Body)
    reads body
  {
    body.Valid() && forall u :: 0 <= u < |body.home| ==> body.home[u] < |body.blocks|
  }

  lemma TwoDistinct(s: seq<nat>)
    requires |s| == 2
    ensures NoDuplicates(s) <==> s[0] != s[1]
  {
    assert s[..|s| - 1] == [s[0]] && NoDuplicates([s[0]]);
  }

  /** `ok`: the original does not stop at the assertion on repeated operands. */
  method FoldTo(body: Body, x: nat, y: nat) returns (ok: bool)
    requires Usable(body) && IsLive(body.nodes, x) && y in body.nodes[x].inputs
    modifies body
    ensures ok <==> old(body.nodes[x].inputs[0] != body.nodes[x].inputs[1])
    ensures ok ==> Usable(body) && Removed(old(ListingOf(body)), ListingOf(body), x, y)
  {
    body.SetUsersFrom(y, x);
    RedirectNone(old(body.nodes)[x].inputs, x, y);
    TwoDistinct(body.nodes[x].inputs);
    ok := body.RemoveInst(x);
  }

  /** The original does not stop in the rule for `x`: what it takes out does not read one value twice, which fails
      an assertion, and the first of two shifts has not been taken out before. */
  predicate Serves(nodes: seq<Node>, users: seq<set<nat>>, x: nat) {
    if Rule(nodes, x).Some? then nodes[x].inputs[0] != nodes[x].inputs[1]
    else MergeRule(nodes, users, x) ==> IsLive(nodes, nodes[x].inputs[0]) && ReadsTwo(nodes, nodes[x].inputs[0])
  }

  predicate ReadsTwo(nodes: seq<Node>, x: nat) {
    x < |nodes| && |nodes[x].inputs| == 2 && nodes[x].inputs[0] != nodes[x].inputs[1]
  }

  /** What the rules make of `x`. */
  ghost predicate Outcome(l: Listing, users: seq<set<nat>>, l': Listing, x: nat) {
    match Rule(l.p.nodes, x)
    case Some(y) => Removed(l, l', x, y)
    case None => if MergeRule(l.p.nodes, users, x) then Merged(l, l', x) else l' == l
  }

  method DoAdd(body: Body, x: nat) returns (ok: bool)
    requires Usable(body) && IsLive(body.nodes, x) && IsBin(body.nodes, x, Add)
    modifies body
    ensures ok <==> Serves(old(body.nodes), old(body.users), x)
    ensures ok ==> Usable(body) && Outcome(old(ListingOf(body)), old(body.users), ListingOf(body), x)
  {
    var lval, rval := body.nodes[x].inputs[0], body.nodes[x].inputs[1];
    ok := true;
    if IsZero(body.nodes, rval) {
      ok := FoldTo(body, x, lval);
    }
  }

  method DoOr(body: Body, x: nat) returns (ok: bool)
    requires Usable(body) && IsLive(body.nodes, x) && IsBin(body.nodes, x, Or)
    modifies body
    ensures ok <==> Serves(old(body.nodes), old(body.users), x)
    ensures ok ==> Usable(body) && Outcome(old(ListingOf(body)), old(body.users), ListingOf(body), x)
  {
    var lval, rval := body.nodes[x].inputs[0], body.nodes[x].inputs[1];
    ok := true;
    if IsZero(body.nodes, rval) {
      ok := FoldTo(body, x, lval);
    } else if IsOnes(body.nodes, rval) {
      ok := FoldTo(body, x, rval);
    }
  }

  method DoShr(body: Body, x: nat) returns (ok: bool)
    requires Usable(body) && IsLive(body.nodes, x) && IsBin(body.nodes, x, Shr)
    modifies body
    ensures ok <==> Serves(old(body.nodes), old(body.users), x)
    ensures ok ==> Usable(body) && Outcome(old(ListingOf(body)), old(body.users), ListingOf(body), x)
  {
    var lval, rval := body.nodes[x].inputs[0], body.nodes[x].inputs[1];
    if !IsConst(body.nodes, rval) {
      return true;
    }
    if IsZero(body.nodes, rval) {
      ok := FoldTo(body, x, lval);
      return;
    }
    ok := true;
    assert lval in body.nodes[x].inputs;
    if IsBin(body.nodes, lval, Shr) {
      if |body.users[lval]| > 1 {
        return;
      }
      if !IsConst(body.nodes, body.nodes[lval].inputs[1]) {
        return;
      }
      if !IsLive(body.nodes, lval) {
        return false;
      }
      ok := MergeShifts(body, x, lval);
    }
  }

  lemma OnlyUser(users: set<nat>, x: nat, y: nat)
    requires |users| <= 1 && x in users && y in users
    ensures x == y
  {
    if x != y {
      SubsetSize({x, y}, users);
    }
  }

  method MergeShifts(body: Body, x: nat, fst: nat) returns (ok: bool)
    requires Usable(body) && IsLive(body.nodes, x) && MergeRule(body.nodes, body.users, x)
    requires fst == body.nodes[x].inputs[0] && IsLive(body.nodes, fst)
    modifies body
    ensures ok <==> ReadsTwo(old(body.nodes), fst)
    ensures ok ==> Usable(body) && Merged(old(ListingOf(body)), ListingOf(body), x)
  {
    ghost var nodes, users := body.nodes, body.users;
    var newAdd := AddAmounts(body, x, fst);
    TwoDistinct(body.nodes[fst].inputs);
    ok := body.ClearInputs(fst);
    if ok {
      ghost var cleared := body.nodes;
      body.ReplaceInst(fst, newAdd);
      forall u | 0 <= u < |cleared| ensures body.nodes[u] == cleared[u] {
        FstUnread(nodes, users, cleared, x, fst, u);
        RedirectNone(cleared[u].inputs, fst, newAdd);
      }
    }
  }

  /** The second shift reads the operand of the first one and the sum of the amounts. */
  method AddAmounts(body: Body, x: nat, fst: nat) returns (newAdd: nat)
    requires Usable(body) && IsLive(body.nodes, x) && IsLive(body.nodes, fst) && fst == body.nodes[x].inputs[0]
    modifies body
    ensures Usable(body) && newAdd == |old(body.nodes)| && body.blocks == old(body.blocks)
    ensures body.home == old(body.home) + [old(body.home[fst])]
    ensures var nodes := old(body.nodes);
            && nodes[x].inputs[1] < |nodes|
            && body.nodes == (nodes + [Node(Bin(Add), nodes[nodes[x].inputs[1]].ty,
                                            [nodes[fst].inputs[1], nodes[x].inputs[1]])])
                             [x := nodes[x].(inputs := [nodes[fst].inputs[0], |nodes|])]
  {
    var fstShamt, rval := body.nodes[fst].inputs[1], body.nodes[x].inputs[1];
    assert fstShamt in body.nodes[fst].inputs && rval in body.nodes[x].inputs;
    assert body.nodes[fst].inputs[0] in body.nodes[fst].inputs && fst in body.nodes[x].inputs;
    newAdd := body.NewBinOp(Add, fstShamt, rval, body.home[fst]);
    body.SetInput(x, 0, body.nodes[fst].inputs[0]);
    body.SetInput(x, 1, newAdd);
    assert body.nodes[x].inputs == [body.nodes[fst].inputs[0], newAdd];
  }

  /** The first shift has no reader left. */
  lemma FstUnread(nodes: seq<Node>, users: seq<set<nat>>, nodes': seq<Node>, x: nat, fst: nat, u: nat)
    requires Consistent(nodes, users) && IsLive(nodes, fst) && MergeRule(nodes, users, x)
    requires fst == nodes[x].inputs[0] && x != fst && nodes[x].inputs[1] < |nodes|
    requires nodes' == (nodes + [Node(Bin(Add), nodes[nodes[x].inputs[1]].ty,
                                      [nodes[fst].inputs[1], nodes[x].inputs[1]])])
        [x := nodes[x].(inputs := [nodes[fst].inputs[0], |nodes|])][fst := nodes[fst].(inputs := [])]
    requires u < |nodes'|
    ensures fst !in nodes'[u].inputs
  {
    assert nodes[fst].inputs[0] in nodes[fst].inputs;
    if u < |nodes| && u != x && u != fst && fst in nodes[u].inputs {
      SoleReader(nodes, users, x, u);
    }
  }

  lemma SoleReader(nodes: seq<Node>, users: seq<set<nat>>, x: nat, u: nat)
    requires Consistent(nodes, users) && MergeRule(nodes, users, x) && u < |nodes|
    requires nodes[x].inputs[0] in nodes[u].inputs
    ensures u == x
  {
    var fst := nodes[x].inputs[0];
    assert UserIff(nodes, users, fst, u) && UserIff(nodes, users, fst, x);
    OnlyUser(users[fst], x, u);
  }

  /** A constant left operand is moved to the right. */
  predicate NeedsSwap(nodes: seq<Node>, x: nat) {
    (IsBin(nodes, x, Add) || IsBin(nodes, x, Or)) && IsConst(nodes, nodes[x].inputs[0])
    && !IsConst(nodes, nodes[x].inputs[1])
  }

  ghost function Swapped(l: Listing, x: nat): Listing
    requires x < |l.p.nodes| && |l.p.nodes[x].inputs| == 2
  {
    Rewired(l, x, [l.p.nodes[x].inputs[1], l.p.nodes[x].inputs[0]])
  }

  /** One candidate. `ok`: the original neither stops at an assertion nor is handed an instruction that is
      already deleted. `mid` is the code after the swap. */
  method DoBinFold(body: Body, x: nat) returns (ok: bool, ghost mid: Listing)
    requires Usable(body) && x < |body.nodes|
    modifies body
    ensures IsLive(old(body.nodes), x) && old(body.users[x]) != {} ==>
        (ok <==> Serves(if NeedsSwap(old(body.nodes), x) then Swapped(old(ListingOf(body)), x).p.nodes
                        else old(body.nodes), old(body.users), x))
    ensures IsLive(old(body.nodes), x) && old(body.users[x]) == {} ==> ok
    ensures ok ==> Usable(body) && IsLive(old(body.nodes), x)
    ensures ok && old(body.users[x]) == {} ==> ListingOf(body) == mid == old(ListingOf(body))
    ensures ok && old(body.users[x]) != {} ==>
        && mid == (if NeedsSwap(old(body.nodes), x) then Swapped(old(ListingOf(body)), x) else old(ListingOf(body)))
        && Outcome(mid, old(body.users), ListingOf(body), x)
  {
    mid := ListingOf(body);
    if !IsLive(body.nodes, x) {
      return false, mid;
    }
    ok := true;
    if |body.users[x]| > 0 {
      if NeedsSwap(body.nodes, x) {
        body.SwapInputs(x, 0, 1);
        assert body.nodes[x].inputs == [old(body.nodes[x].inputs[1]), old(body.nodes[x].inputs[0])];
      }
      mid := ListingOf(body);
    }
    if |body.users[x]| > 0 {
      match body.nodes[x].op.oper
      case Add => ok := DoAdd(body, x);
      case Shr => ok := DoShr(body, x);
      case Or => ok := DoOr(body, x);
      case _ =>
    }
  }

  // ----- the pass -----

  ghost predicate HasReader(nodes: seq<Node>, x: nat) {
    exists u: nat :: u < |nodes| && x in nodes[u].inputs
  }

  /** What one candidate changes: without readers nothing, otherwise the operands change places if they need to and
      the rule that applies is taken. */
  ghost predicate FoldStep(l: Listing, mid: Listing, l': Listing, x: nat) {
    && IsLive(l.p.nodes, x)
    && mid == (if HasReader(l.p.nodes, x) && NeedsSwap(l.p.nodes, x) then Swapped(l, x) else l)
    && if !HasReader(l.p.nodes, x) then l' == mid
       else if Rule(mid.p.nodes, x).Some? then Removed(mid, l', x, Rule(mid.p.nodes, x).value)
       else if MergeShape(mid.p.nodes, x) && OnlyReader(mid.p.nodes, x) then Merged(mid, l', x)
       else l' == mid
  }

  /** The original does not stop at the candidate `x`. */
  ghost predicate GoesOn(l: Listing, x: nat) {
    && IsLive(l.p.nodes, x)
    && (HasReader(l.p.nodes, x) ==>
          ServesAlone(if NeedsSwap(l.p.nodes, x) then Swapped(l, x).p.nodes else l.p.nodes, x))
  }

  ghost predicate ServesAlone(nodes: seq<Node>, x: nat) {
    if Rule(nodes, x).Some? then nodes[x].inputs[0] != nodes[x].inputs[1]
    else MergeShape(nodes, x) && OnlyReader(nodes, x) ==>
      IsLive(nodes, nodes[x].inputs[0]) && ReadsTwo(nodes, nodes[x].inputs[0])
  }

  ghost predicate FoldTrace(trace: seq<Listing>, mids: seq<Listing>, cands: seq<nat>) {
    && |trace| == |mids| + 1 == |cands| + 1
    && (forall i :: 0 <= i < |cands| ==> FoldStep(trace[i], mids[i], trace[i + 1], cands[i]))
  }

  function Bins(nodes: seq<Node>, ids: seq<nat>): seq<nat> {
    if ids == [] then []
    else
      var front, last := Bins(nodes, ids[..|ids| - 1]), ids[|ids| - 1];
      if last < |nodes| && nodes[last].op.Bin? then front + [last] else front
  }

  lemma {:induction false} BinsMembers(nodes: seq<Node>, ids: seq<nat>, x: nat)
    ensures x in Bins(nodes, ids) <==> x in ids && x < |nodes| && nodes[x].op.Bin?
  {
    if ids != [] {
      BinsMembers(nodes, ids[..|ids| - 1], x);
      assert ids == ids[..|ids| - 1] + [ids[|ids| - 1]];
    }
  }

  /** The binary operations of the given blocks, block by block in order. */
  method FindCandidates(body: Body, rpo: seq<nat>) returns (cands: seq<nat>)
    requires forall b :: b in rpo ==> b < |body.blocks|
    ensures cands == Bins(body.nodes, Flat(body.blocks, rpo))
  {
    cands := [];
    for k := 0 to |rpo|
      invariant cands == Bins(body.nodes, Flat(body.blocks, rpo[..k]))
    {
      assert rpo[k] in rpo && rpo[..k + 1] == rpo[..k] + [rpo[k]];
      FlatAppend(body.blocks, rpo[..k], rpo[k]);
      BinsConcat(body.nodes, Flat(body.blocks, rpo[..k]), body.blocks[rpo[k]]);
      var found := CopyBins(body, body.blocks[rpo[k]]);
      cands := cands + found;
    }
    assert rpo[..|rpo|] == rpo;
  }

  method CopyBins(body: Body, list: seq<nat>) returns (found: seq<nat>)
    ensures found == Bins(body.nodes, list)
  {
    found := [];
    for i := 0 to |list|
      invariant found == Bins(body.nodes, list[..i])
    {
      assert list[..i + 1][..i] == list[..i];
      if list[i] < |body.nodes| && body.nodes[list[i]].op.Bin? {
        found := found + [list[i]];
      }
    }
    assert list[..|list|] == list;
  }

  /** Some reachable block lists `x`. */
  ghost predicate IsListed(g: Graph, entry: nat, blocks: seq<seq<nat>>, x: nat) {
    exists b: nat :: b < |blocks| && Reachable(g, entry, b) && x in blocks[b]
  }

  /** The blocks in reverse post-order list what the reachable blocks list. */
  lemma ListedIff(g: Graph, entry: nat, rpo: seq<nat>, blocks: seq<seq<nat>>, x: nat)
    requires ValidGraph(g) && |g| == |blocks| && exists s :: IsReversePostOrder(g, entry, rpo, s)
    ensures x in Flat(blocks, rpo) <==> IsListed(g, entry, blocks, x)
  {
    var s :| IsReversePostOrder(g, entry, rpo, s);
    if x in Flat(blocks, rpo) {
      var t := FlatMember(blocks, rpo, x);
      ReversePostOrderFacts(g, entry, rpo, s, t, t);
    }
    if b: nat :| b < |blocks| && Reachable(g, entry, b) && x in blocks[b] {
      SearchIsComplete(g, entry, s);
      var t: nat := |rpo| - 1 - s.rank[b];
      assert rpo[t] == b;
      FlatHas(blocks, rpo, t, x);
    }
  }

  lemma {:induction false} FlatHas(blocks: seq<seq<nat>>, trail: seq<nat>, t: nat, x: nat)
    requires t < |trail| && x in Block(blocks, trail[t])
    ensures x in Flat(blocks, trail)
  {
    if t < |trail| - 1 {
      FlatHas(blocks, trail[..|trail| - 1], t, x);
    }
  }

  /** The candidates are the binary operations that reachable blocks list. */
  lemma CandidateIff(g: Graph, entry: nat, rpo: seq<nat>, p: Program, x: nat)
    requires ValidGraph(g) && |g| == |p.blocks| && exists s :: IsReversePostOrder(g, entry, rpo, s)
    ensures x in Bins(p.nodes, Flat(p.blocks, rpo))
            <==> IsListed(g, entry, p.blocks, x) && x < |p.nodes| && p.nodes[x].op.Bin?
  {
    BinsMembers(p.nodes, Flat(p.blocks, rpo), x);
    ListedIff(g, entry, rpo, p.blocks, x);
  }

  lemma {:induction false} BinsConcat(nodes: seq<Node>, a: seq<nat>, b: seq<nat>)
    ensures Bins(nodes, a + b) == Bins(nodes, a) + Bins(nodes, b)
  {
    if b == [] {
      assert a + b == a;
    } else {
      BinsConcat(nodes, a, b[..|b| - 1]);
      assert (a + b)[..|a + b| - 1] == a + b[..|b| - 1];
    }
  }

  /** The original stops at the first candidate at which it does not go on. */
  ghost predicate Folded(ok: bool, trace: seq<Listing>, mids: seq<Listing>, cands: seq<nat>) {
    && |mids| <= |cands| && FoldTrace(trace, mids, cands[..|mids|]) && AllGoOn(trace, cands[..|mids|])
    && if ok then |mids| == |cands| else |mids| < |cands| && !GoesOn(trace[|mids|], cands[|mids|])
  }

  ghost predicate AllGoOn(trace: seq<Listing>, cands: seq<nat>) {
    |trace| >= |cands| && forall i :: 0 <= i < |cands| ==> GoesOn(trace[i], cands[i])
  }

  /** One candidate as a step of the pass. */
  method FoldOne(body: Body, x: nat) returns (ok: bool, ghost mid: Listing)
    requires Usable(body) && x < |body.nodes|
    modifies body
    ensures ok <==> GoesOn(old(ListingOf(body)), x)
    ensures ok ==> Usable(body) && FoldStep(old(ListingOf(body)), mid, ListingOf(body), x)
                   && |old(body.nodes)| <= |body.nodes|
  {
    ghost var l, users := ListingOf(body), body.users;
    if IsLive(body.nodes, x) {
      GoesOnIff(l, users, x);
    }
    ok, mid := DoBinFold(body, x);
    if ok {
      IsFoldStep(l, users, mid, ListingOf(body), x);
    }
  }

  method FoldAll(body: Body, cands: seq<nat>)
    returns (ok: bool, ghost trace: seq<Listing>, ghost mids: seq<Listing>)
    requires Usable(body) && forall x :: x in cands ==> x < |body.nodes|
    modifies body
    ensures Folded(ok, trace, mids, cands) && trace[0] == old(ListingOf(body))
    ensures ok ==> Usable(body) && FoldTrace(trace, mids, cands) && trace[|cands|] == ListingOf(body)
  {
    trace, mids, ok := [ListingOf(body)], [], true;
    for i := 0 to |cands|
      invariant Usable(body) && ok && |mids| == i && |old(body.nodes)| <= |body.nodes|
      invariant FoldTrace(trace, mids, cands[..i]) && AllGoOn(trace, cands[..i])
      invariant trace[0] == old(ListingOf(body)) && trace[i] == ListingOf(body)
    {
      assert cands[i] in cands;
      ghost var mid;
      ok, mid := FoldOne(body, cands[i]);
      if !ok {
        return;
      }
      GrownTrace(trace, mids, cands[..i], mid, ListingOf(body), cands[i]);
      trace, mids := trace + [ListingOf(body)], mids + [mid];
      assert cands[..i + 1] == cands[..i] + [cands[i]];
    }
    assert cands[..|cands|] == cands;
  }

  lemma IsFoldStep(l: Listing, users: seq<set<nat>>, mid: Listing, l': Listing, x: nat)
    requires IsLive(l.p.nodes, x) && Consistent(l.p.nodes, users)
    requires users[x] == {} ==> l' == mid == l
    requires users[x] != {} ==>
        mid == (if NeedsSwap(l.p.nodes, x) then Swapped(l, x) else l) && Outcome(mid, users, l', x)
    ensures FoldStep(l, mid, l', x) && |l'.p.nodes| >= |l.p.nodes|
  {
    ReaderIff(l.p.nodes, users, x);
    if users[x] != {} {
      SwapConsistent(l, users, mid, x);
      if MergeShape(mid.p.nodes, x) {
        SoleReaderIff(mid.p.nodes, users, x);
      }
    }
  }

  lemma ReaderIff(nodes: seq<Node>, users: seq<set<nat>>, x: nat)
    requires x < |nodes| && Consistent(nodes, users)
    ensures users[x] != {} <==> HasReader(nodes, x)
  {
    if u :| u in users[x] {
      assert UserIff(nodes, users, x, u);
    }
    if u: nat :| u < |nodes| && x in nodes[u].inputs {
      assert UserIff(nodes, users, x, u);
    }
  }

  lemma GoesOnIff(l: Listing, users: seq<set<nat>>, x: nat)
    requires IsLive(l.p.nodes, x) && Consistent(l.p.nodes, users)
    ensures var nodes := if NeedsSwap(l.p.nodes, x) then Swapped(l, x).p.nodes else l.p.nodes;
            GoesOn(l, x) <==> users[x] == {} || Serves(nodes, users, x)
  {
    ReaderIff(l.p.nodes, users, x);
    var mid := if NeedsSwap(l.p.nodes, x) then Swapped(l, x) else l;
    SwapConsistent(l, users, mid, x);
    if MergeShape(mid.p.nodes, x) {
      SoleReaderIff(mid.p.nodes, users, x);
    }
  }

  /** Changing the places of two operands changes no user. */
  lemma SwapConsistent(l: Listing, users: seq<set<nat>>, mid: Listing, x: nat)
    requires IsLive(l.p.nodes, x) && Consistent(l.p.nodes, users)
    requires mid == if NeedsSwap(l.p.nodes, x) then Swapped(l, x) else l
    ensures Consistent(mid.p.nodes, users)
  {
    forall v: nat, u: nat ensures UserIff(mid.p.nodes, users, v, u) {
      assert UserIff(l.p.nodes, users, v, u);
    }
    forall u, v | 0 <= u < |mid.p.nodes| && v in mid.p.nodes[u].inputs ensures v < |mid.p.nodes| {
      assert v in l.p.nodes[u].inputs;
    }
  }

  /** At most one user: nobody else reads the first shift. */
  lemma SoleReaderIff(nodes: seq<Node>, users: seq<set<nat>>, x: nat)
    requires Consistent(nodes, users) && MergeShape(nodes, x)
    ensures MergeRule(nodes, users, x) <==> OnlyReader(nodes, x)
  {
    var fst := nodes[x].inputs[0];
    assert fst in nodes[x].inputs;
    if MergeRule(nodes, users, x) {
      forall u: nat | u < |nodes| && fst in nodes[u].inputs ensures u == x {
        SoleReader(nodes, users, x, u);
      }
    }
    if OnlyReader(nodes, x) {
      forall u | u in users[fst] ensures u in {x} {
        assert UserIff(nodes, users, fst, u);
      }
      SubsetSize(users[fst], {x});
    }
  }

  lemma GrownTrace(trace: seq<Listing>, mids: seq<Listing>, cands: seq<nat>, mid: Listing, l': Listing, x: nat)
    requires FoldTrace(trace, mids, cands) && FoldStep(trace[|cands|], mid, l', x)
    requires AllGoOn(trace, cands) && GoesOn(trace[|cands|], x)
    ensures FoldTrace(trace + [l'], mids + [mid], cands + [x]) && AllGoOn(trace + [l'], cands + [x])
  {
  }

  /** The pass over all blocks reachable from the entry, in reverse post-order. */
  method Run(body: Body, g: Graph, entry: nat)
    returns (ok: bool, ghost trace: seq<Listing>, ghost mids: seq<Listing>, ghost cands: seq<nat>, ghost rpo: seq<nat>)
    requires Usable(body) && ValidGraph(g) && entry < |g| == |body.blocks|
    modifies body
    ensures Folded(ok, trace, mids, cands) && trace[0] == old(ListingOf(body))
    ensures ok ==> Usable(body) && FoldTrace(trace, mids, cands) && trace[|cands|] == ListingOf(body)
    ensures cands == Bins(old(body.nodes), Flat(old(body.blocks), rpo))
    ensures exists s :: IsReversePostOrder(g, entry, rpo, s)
  {
    var order; ghost var s;
    order, s := ReversePostOrder(g, Some(entry));
    rpo := order;
    forall n | n in rpo ensures n < |g| {
      var i :| 0 <= i < |rpo| && rpo[i] == n;
      ReversePostOrderFacts(g, entry, rpo, s, i, i);
      var path :| EntryPath(g, entry, path, n);
    }
    var found := FindCandidates(body, order);
    cands := found;
    forall x | x in found ensures x < |body.nodes| {
      BinsMembers(body.nodes, Flat(body.blocks, rpo), x);
    }
    ok, trace, mids := FoldAll(body, found);
  }
}
