/** The check-elimination pass. */
module ChecksEliminations {
  // It walks the users of each candidate's input and erases the candidate when an equal check dominates it.

  import opened Wrappers
  import opened Arithmetic
  import opened Graphs
  import opened DfsState
  import opened Dfs
  import opened DomTrees
  import opened Dominators
  import opened Occurrences
  import opened Code
  import opened Redundancy

  /** `v` is compared by some check in a block. */
  ghost predicate IsChecked(p: Program, home: seq<nat>, v: nat) {
    exists c: nat :: In(p.blocks, home, c) && c < |p.nodes| && IsCheck(p.nodes[c]) && Checked(p.nodes[c]) == v
  }

  predicate IsBoundsCheck(n: Node) {
    n.op == Bin(BoundsCheck) && |n.inputs| == 2
  }

  /** No check compares a value with itself. */
  ghost predicate IndicesDiffer(nodes: seq<Node>) {
    forall c: nat :: c < |nodes| && IsBoundsCheck(nodes[c]) ==> nodes[c].inputs[0] != nodes[c].inputs[1]
  }

  /** The instructions of the blocks that have not been erased. */
  ghost predicate Live(p: Program, home: seq<nat>, erased: set<nat>, c: nat) {
    In(p.blocks, home, c) && c !in erased
  }

  /** `u` is a user of `v`: an instruction of the blocks that reads it. An erased check is taken out of the users
      of the value it compares, but stays among those of its bound. */
  ghost predicate IsUser(p: Program, home: seq<nat>, erased: set<nat>, v: nat, u: nat) {
    && u < |p.nodes| && In(p.blocks, home, u) && v in p.nodes[u].inputs
    && !(u in erased && IsCheck(p.nodes[u]) && Checked(p.nodes[u]) == v)
  }

  ghost predicate UsersOf(p: Program, home: seq<nat>, erased: set<nat>, users: map<nat, set<nat>>, v: nat) {
    IsChecked(p, home, v) ==> v in users && forall u: nat :: u in users[v] <==> IsUser(p, home, erased, v, u)
  }

  ghost predicate UsersFit(p: Program, home: seq<nat>, erased: set<nat>, users: map<nat, set<nat>>) {
    forall v: nat :: UsersOf(p, home, erased, users, v)
  }

  lemma EraseUser(p: Program, home: seq<nat>, erased: set<nat>, users: map<nat, set<nat>>, c: nat)
    requires UsersFit(p, home, erased, users)
    requires Live(p, home, erased, c) && c < |p.nodes| && IsCheck(p.nodes[c])
    requires Checked(p.nodes[c]) in users
    ensures var v := Checked(p.nodes[c]);
            UsersFit(p, home, erased + {c}, users[v := users[v] - {c}])
  {
    var v := Checked(p.nodes[c]);
    var users' := users[v := users[v] - {c}];
    var erased' := erased + {c};
    forall w: nat ensures UsersOf(p, home, erased', users', w) {
      assert UsersOf(p, home, erased, users, w);
    }
  }

  /** The test of the pass on a user of the compared value: a check of the same kind, for bounds checks with the
      same bound. */
  predicate LooksEqual(nodes: seq<Node>, user: nat, op: nat)
    requires op < |nodes| && IsCheck(nodes[op])
  {
    user < |nodes| &&
    if nodes[op].op.ZeroCheck? then nodes[user].op.ZeroCheck?
    else nodes[user].op == Bin(BoundsCheck) && |nodes[user].inputs| == 2 && nodes[user].inputs[1] == nodes[op].inputs[1]
  }

  /** What passes the test is an equal check. */
  lemma UserIsEqual(nodes: seq<Node>, op: nat, user: nat)
    requires op < |nodes| && user < |nodes| && IsCheck(nodes[op]) && Checked(nodes[op]) in nodes[user].inputs
    requires WellFormed(nodes) && (IsBoundsCheck(nodes[op]) ==> nodes[op].inputs[0] != nodes[op].inputs[1])
    ensures LooksEqual(nodes, user, op) <==> SameCheck(nodes[user], nodes[op])
  {
    assert ArityOk(nodes[user]) && ArityOk(nodes[op]);
  }

  /** A value compared with itself: any check with that bound passes the test. */
  lemma SelfBoundLooksEqual()
    ensures var nodes := [Node(Other, I64, []), Node(Other, I64, []),
                          Node(Bin(BoundsCheck), I64, [0, 1]), Node(Bin(BoundsCheck), I64, [1, 1])];
            Checked(nodes[3]) in nodes[2].inputs && LooksEqual(nodes, 2, 3) && !SameCheck(nodes[2], nodes[3])
  {
  }

  class ChecksElimination {
    const insts: seq<Node>
    /** The block an instruction belongs to. */
    const home: seq<nat>
    var blocks: seq<seq<nat>>
    var users: map<nat, set<nat>>
    var candidates: seq<nat>
    var tree: map<nat, seq<nat>>
    var times: map<nat, nat>
    ghost var preds: seq<seq<nat>>
    ghost const original: Program
    ghost var erased: set<nat>

    ghost predicate Valid()
      reads this
    {
      && original.nodes == insts && WellFormed(insts) && |home| == |insts| && Placed(original.blocks, home)
      && IndicesDiffer(insts) && (forall c :: c in erased ==> c < |insts| && IsCheck(insts[c]))
      && blocks == KeepBlocks(original.blocks, erased)
      && UsersFit(original, home, erased, users)
    }

    ghost predicate TreeReady()
      reads this
    {
      TreeFits(preds, times) && IsTree(preds, tree)
    }

    constructor (insts: seq<Node>, blocks: seq<seq<nat>>, home: seq<nat>, users: map<nat, set<nat>>)
      requires WellFormed(insts) && |home| == |insts| && Placed(blocks, home) && IndicesDiffer(insts)
      requires UsersFit(Program(insts, blocks), home, {}, users)
      ensures Valid() && erased == {} && original == Program(insts, blocks) && this.home == home
    {
      this.insts, this.home, this.blocks, this.users := insts, home, blocks, users;
      candidates, tree, times, preds := [], map[], map[], [];
      original, erased := Program(insts, blocks), {};
      new;
      KeepsAll(blocks);
    }

    /** The checks of the given blocks, block by block. */
    method FillCandidates(rpo: seq<nat>)
      requires Valid() && erased == {} && NoDuplicates(rpo) && forall b :: b in rpo ==> b < |blocks|
      modifies this`candidates
      ensures Valid() && erased == {} && NoDuplicates(candidates)
      ensures forall c :: c in candidates <==> IsCandidate(rpo, c)
    {
      KeepsAll(original.blocks);
      candidates := [];
      for k := 0 to |rpo|
        invariant NoDuplicates(candidates) && forall c :: c in candidates <==> IsCandidate(rpo[..k], c)
        invariant blocks == original.blocks
      {
        assert rpo[k] in rpo;
        assert rpo[..k + 1] == rpo[..k] + [rpo[k]];
        SamePrefix(rpo, k);
        CopyChecks(rpo[k], rpo[..k]);
      }
      assert rpo[..|rpo|] == rpo;
    }

    ghost predicate IsCandidate(rpo: seq<nat>, c: nat)
      reads this
    {
      In(original.blocks, home, c) && c < |insts| && IsCheck(insts[c]) && home[c] in rpo
    }

    method CopyChecks(bb: nat, ghost done: seq<nat>)
      requires Valid() && erased == {} && bb < |blocks| && blocks == original.blocks && bb !in done
      requires NoDuplicates(candidates) && forall c :: c in candidates <==> IsCandidate(done, c)
      modifies this`candidates
      ensures NoDuplicates(candidates) && forall c :: c in candidates <==> IsCandidate(done + [bb], c)
    {
      var list := blocks[bb];
      for i := 0 to |list|
        invariant NoDuplicates(candidates)
        invariant forall c: nat :: c in candidates <==>
            IsCandidate(done, c) || (c in list[..i] && c < |insts| && IsCheck(insts[c]))
      {
        var inst := list[i];
        assert inst in list && In(original.blocks, home, inst) && list[..i + 1] == list[..i] + [inst];
        if IsCheck(insts[inst]) {
          SamePrefix(list, i);
          assert (candidates + [inst])[..|candidates|] == candidates;
          candidates := candidates + [inst];
        }
      }
      assert list[..|list|] == list;
    }

    /** The pass: candidates in reverse post-order, the dominator tree, and every candidate in turn. What it
        erases are exactly the candidates with an equal check above them in the code as it was, whatever
        the order of candidates and users. Without `ok` the original reads an instruction it has deleted, which
        it does not if no erased check has as its bound what a later candidate compares. */
    method Run(g: Graph, entry: nat, predLists: Graph) returns (ok: bool, ghost rpo: seq<nat>, ghost order: seq<nat>)
      requires Valid() && erased == {} && ValidGraph(g) && entry < |g| == |blocks|
      requires MatchingPreds(g, entry, predLists)
      modifies this
      ensures Valid() && TreeReady()
      ensures Renames(g, entry, predLists, order, preds) && IsTimes(g, entry, order, times)
      ensures forall b :: b in rpo <==> Reachable(g, entry, b)
      ensures NoDuplicates(candidates) && forall c :: c in candidates <==> IsCandidate(rpo, c)
      ensures BoundsSafe() ==> ok
      ensures ok ==> forall c :: c in erased <==> IsErased(original, home, preds, times, rpo, c)
    {
      rpo := CollectAll(g, entry);
      order := BuildTree(g, entry, predLists);
      assert forall c :: c in candidates ==> IsCandidate(rpo, c);
      ok := ProcessAll();
    }

    /** The checks of the reachable blocks, in reverse post-order. */
    method CollectAll(g: Graph, entry: nat) returns (ghost rpo: seq<nat>)
      requires Valid() && erased == {} && ValidGraph(g) && entry < |g| == |blocks|
      modifies this`candidates
      ensures Valid() && erased == {} && forall b :: b in rpo <==> Reachable(g, entry, b)
      ensures NoDuplicates(candidates) && forall c :: c in candidates <==> IsCandidate(rpo, c)
    {
      var bbs; ghost var s;
      bbs, s := ReversePostOrder(g, Some(entry));
      ReversePostOrderIsSet(g, entry, bbs, s);
      rpo := bbs;
      forall b | b in bbs ensures b < |blocks| {
        ReachableInGraph(g, entry, b);
      }
      FillCandidates(bbs);
    }

    /** No redundant bounds check has as its bound what a later candidate compares. */
    ghost predicate BoundsSafe()
      requires TreeReady()
      reads this
    {
      forall i, j :: 0 <= i < j < |candidates| && Redundant(original, home, preds, times, candidates[i]) ==>
        !IsBoundOf(candidates[i], candidates[j])
    }

    /** The bound of the check `c` is what the check `d` compares. */
    ghost predicate IsBoundOf(c: nat, d: nat) {
      c < |insts| && d < |insts| && IsBoundsCheck(insts[c]) && IsCheck(insts[d])
        && insts[c].inputs[1] == Checked(insts[d])
    }

    /** An erased check still counts as a user of `v`. */
    ghost predicate HasDangling(v: nat)
      reads this
    {
      exists u :: u in erased && u < |insts| && IsBoundsCheck(insts[u]) && insts[u].inputs[1] == v
    }

    method ProcessAll() returns (ok: bool)
      requires Valid() && TreeReady() && erased == {} && NoDuplicates(candidates)
      requires forall c :: c in candidates ==>
          c < |insts| && IsCheck(insts[c]) && In(original.blocks, home, c) && home[c] in times
      modifies this`blocks, this`users, this`erased
      ensures Valid() && TreeReady() && (BoundsSafe() ==> ok)
      ensures ok ==> forall c :: c in erased <==> c in candidates && Redundant(original, home, preds, times, c)
    {
      for i := 0 to |candidates|
        invariant Valid() && TreeReady()
        invariant forall c :: c in erased <==> c in candidates[..i] && Redundant(original, home, preds, times, c)
      {
        assert candidates[..i + 1] == candidates[..i] + [candidates[i]];
        assert candidates[i] in candidates;
        SamePrefix(candidates, i);
        SafeAt(i);
        ok := Process(candidates[i], candidates[..i]);
        if !ok {
          return;
        }
      }
      ok := true;
      assert candidates[..|candidates|] == candidates;
    }

    lemma SafeAt(i: nat)
      requires TreeReady() && i < |candidates| && forall c :: c in candidates ==> c < |insts| && IsCheck(insts[c])
      requires forall c :: c in erased <==> c in candidates[..i] && Redundant(original, home, preds, times, c)
      ensures candidates[i] < |insts| && IsCheck(insts[candidates[i]])
      ensures BoundsSafe() ==> !HasDangling(Checked(insts[candidates[i]]))
    {
      assert candidates[i] in candidates;
      if HasDangling(Checked(insts[candidates[i]])) {
        var u :| u in erased && u < |insts| && IsBoundsCheck(insts[u])
          && insts[u].inputs[1] == Checked(insts[candidates[i]]);
        var k :| 0 <= k < i && candidates[k] == u;
        assert IsBoundOf(candidates[k], candidates[i]);
      }
    }

    method BuildTree(g: Graph, entry: nat, predLists: Graph) returns (ghost order: seq<nat>)
      requires Valid() && ValidGraph(g) && entry < |g| && MatchingPreds(g, entry, predLists)
      modifies this`tree, this`times, this`preds
      ensures Valid() && TreeReady() && Renames(g, entry, predLists, order, preds) && IsTimes(g, entry, order, times)
    {
      var dfsOrder, dfsTimes, builder := BuildDomTree(g, entry, predLists);
      order := dfsOrder;
      tree, times, preds := builder.tree, dfsTimes, builder.preds;
    }

    method Process(cand: nat, ghost done: seq<nat>) returns (ok: bool)
      requires Valid() && TreeReady() && Candidate(cand)
      requires forall c :: c in erased <==> c in done && Redundant(original, home, preds, times, c)
      modifies this`blocks, this`users, this`erased
      ensures Valid() && TreeReady() && (!old(HasDangling(Checked(insts[cand]))) ==> ok)
      ensures ok ==> forall c :: c in erased <==> (c in done || c == cand) && Redundant(original, home, preds, times, c)
    {
      LiveAboveIff(cand, done);
      if insts[cand].op.ZeroCheck? {
        ok := ZeroCheckElim(cand);
      } else {
        ok := BoundsCheckElim(cand);
      }
    }

    /** An equal check that is still there is found exactly when there was one at the start. */
    lemma LiveAboveIff(op: nat, done: seq<nat>)
      requires Valid() && TreeReady()
      requires forall c :: c in erased <==> c in done && Redundant(original, home, preds, times, c)
      ensures HasLiveAbove(op) <==> Redundant(original, home, preds, times, op)
    {
      if Redundant(original, home, preds, times, op) {
        var a := TopmostAbove(original, home, preds, times, op);
      }
    }

    /** Whether one instruction dominates another: the order in the list within a block, else the tree. */
    method IsDominator(dom: nat, node: nat) returns (dominates: bool)
      requires Valid() && TreeReady() && dom != node
      requires Live(original, home, erased, dom) && Live(original, home, erased, node) && home[node] in times
      ensures dominates <==> TreeAbove(original, home, preds, times, dom, node)
    {
      if home[dom] == home[node] {
        KeepsOrder(original.blocks[home[dom]], erased, dom, node);
        KeepMembers(original.blocks[home[dom]], erased, dom);
        KeepMembers(original.blocks[home[dom]], erased, node);
        KeepsDistinct(original.blocks[home[dom]], erased);
        dominates := FindFrom(blocks[home[dom]], dom, node);
      } else if home[dom] !in times {
        dominates := false;
      } else {
        dominates := Dominators.IsDominator(tree, times[home[dom]], times[home[node]], preds);
      }
    }

    method ZeroCheckElim(op: nat) returns (ok: bool)
      requires Valid() && TreeReady() && Candidate(op) && insts[op].op.ZeroCheck?
      modifies this`blocks, this`users, this`erased
      ensures Valid() && TreeReady() && (!old(HasDangling(Checked(insts[op]))) ==> ok)
      ensures ok ==> erased == old(erased) + if old(HasLiveAbove(op)) then {op} else {}
    {
      var input := Checked(insts[op]);
      assert UsersOf(original, home, erased, users, input) && IsChecked(original, home, input);
      var todo := users[input];
      while todo != {}
        invariant Valid() && erased == old(erased) && users == old(users) && blocks == old(blocks) && input in users
        invariant todo <= users[input]
        invariant forall u: nat :: u in users[input] && u !in todo ==> !EqualAbove(original, home, preds, times, u, op)
      {
        var user: nat :| user in todo;
        todo := todo - {user};
        if user == op {
          TreeAboveStrictAt(op);
          continue;
        }
        if !IsThere(user, op) {
          return false;
        }
        UserIsEqual(insts, op, user);
        if !insts[user].op.ZeroCheck? {
          continue;
        }
        var dominates := IsDominator(user, op);
        if dominates {
          assert EqualAbove(original, home, preds, times, user, op);
          Erase(op);
          return true;
        }
      }
      NoneAbove(op);
      ok := true;
    }

    method BoundsCheckElim(op: nat) returns (ok: bool)
      requires Valid() && TreeReady() && Candidate(op) && IsBoundsCheck(insts[op])
      modifies this`blocks, this`users, this`erased
      ensures Valid() && TreeReady() && (!old(HasDangling(Checked(insts[op]))) ==> ok)
      ensures ok ==> erased == old(erased) + if old(HasLiveAbove(op)) then {op} else {}
    {
      var input, bound := Checked(insts[op]), insts[op].inputs[1];
      assert UsersOf(original, home, erased, users, input) && IsChecked(original, home, input);
      var todo := users[input];
      while todo != {}
        invariant Valid() && erased == old(erased) && users == old(users) && blocks == old(blocks) && input in users
        invariant todo <= users[input]
        invariant forall u: nat :: u in users[input] && u !in todo ==> !EqualAbove(original, home, preds, times, u, op)
      {
        var user: nat :| user in todo;
        todo := todo - {user};
        if user == op {
          TreeAboveStrictAt(op);
          continue;
        }
        if !IsThere(user, op) {
          return false;
        }
        UserIsEqual(insts, op, user);
        if insts[user].op != Bin(BoundsCheck) || insts[user].inputs[1] != bound {
          continue;
        }
        var dominates := IsDominator(user, op);
        if dominates {
          assert EqualAbove(original, home, preds, times, user, op);
          Erase(op);
          return true;
        }
      }
      NoneAbove(op);
      ok := true;
    }

    /** Whether a user still stands in its block; one that does not is a check whose bound is the value. */
    predicate IsThere(user: nat, op: nat)
      requires Valid() && Candidate(op) && Checked(insts[op]) in users && user in users[Checked(insts[op])]
      reads this
      ensures user < |insts| && Checked(insts[op]) in insts[user].inputs
      ensures IsThere(user, op) <==> Live(original, home, erased, user)
      ensures !IsThere(user, op) ==> HasDangling(Checked(insts[op]))
    {
      assert UsersOf(original, home, erased, users, Checked(insts[op]))
             && IsChecked(original, home, Checked(insts[op]));
      assert IsUser(original, home, erased, Checked(insts[op]), user);
      KeepMembers(original.blocks[home[user]], erased, user);
      user in blocks[home[user]]
    }

    ghost predicate Candidate(op: nat)
      reads this
    {
      op < |insts| && IsCheck(insts[op]) && Live(original, home, erased, op) && home[op] in times
    }

    ghost predicate HasLiveAbove(op: nat)
      requires TreeReady()
      reads this
    {
      exists a: nat :: a !in erased && EqualAbove(original, home, preds, times, a, op)
    }

    lemma TreeAboveStrictAt(op: nat)
      requires Valid() && TreeReady()
      ensures !EqualAbove(original, home, preds, times, op, op)
    {
      if EqualAbove(original, home, preds, times, op, op) {
        TreeAboveIsStrict(original, home, preds, times, op, op);
      }
    }

    lemma NoneAbove(op: nat)
      requires Valid() && TreeReady() && Candidate(op) && Checked(insts[op]) in users
      requires forall u: nat :: u in users[Checked(insts[op])] ==> !EqualAbove(original, home, preds, times, u, op)
      ensures !HasLiveAbove(op)
    {
      assert UsersOf(original, home, erased, users, Checked(insts[op]));
      assert IsChecked(original, home, Checked(insts[op]));
    }

    method Erase(op: nat)
      requires Valid() && Candidate(op) && Checked(insts[op]) in users
      modifies this`blocks, this`users, this`erased
      ensures Valid() && erased == old(erased) + {op}
    {
      EraseUser(original, home, erased, users, op);
      KeepTwice(original.blocks[home[op]], erased, op);
      KeepsOthers(original, home, erased, op);
      users := users[Checked(insts[op]) := users[Checked(insts[op])] - {op}];
      blocks := blocks[home[op] := Keep(blocks[home[op]], {op})];
      erased := erased + {op};
    }
  }

  /** A reverse post-order lists every reachable node, and none twice. */
  lemma ReversePostOrderIsSet(g: Graph, entry: nat, order: seq<nat>, s: Search)
    requires ValidGraph(g) && IsReversePostOrder(g, entry, order, s)
    ensures NoDuplicates(order) && forall n :: n in order <==> Reachable(g, entry, n)
  {
    forall i, k | 0 <= i < |order| && 0 <= k < |order| && order[i] == order[k] ensures i == k {
      ReversePostOrderFacts(g, entry, order, s, i, k);
    }
    DistinctPrefix(order, |order|);
    assert order[..|order|] == order;
    SearchIsComplete(g, entry, s);
    forall n ensures n in order <==> n in s.rank {
      if n in s.rank {
        assert order[|order| - 1 - s.rank[n]] == n;
      }
      if n in order {
        var i :| 0 <= i < |order| && order[i] == n;
        assert s.rank[s.post[|order| - 1 - i]] == |order| - 1 - i;
      }
    }
  }

  /** `node` is met when the list is scanned from `dom` on. */
  method FindFrom(list: seq<nat>, dom: nat, node: nat) returns (found: bool)
    requires dom in list && node in list && dom != node && NoDuplicates(list)
    ensures found <==> Precedes(list, dom, node)
  {
    var i := 0;
    while list[i] != dom
      invariant 0 <= i < |list| && dom !in list[..i]
      decreases |list| - i
    {
      i := i + 1;
    }
    ghost var start := i;
    while i < |list| && list[i] != node
      invariant start <= i <= |list| && forall k :: start <= k < i ==> list[k] != node
    {
      i := i + 1;
    }
    found := i < |list|;
    if found {
      PrecedesAt(list, dom, i);
      assert list[..i][start] == dom;
    } else {
      var k: nat :| k < |list| && list[k] == node;
      PrecedesAt(list, dom, k);
      assert forall j :: 0 <= j < k ==> list[j] == list[..start][j];
    }
  }

  lemma KeepsAll(blocks: seq<seq<nat>>)
    ensures KeepBlocks(blocks, {}) == blocks
  {
    forall b | 0 <= b < |blocks| ensures Keep(blocks[b], {}) == blocks[b] {
      KeepsList(blocks[b]);
    }
  }

  lemma {:induction false} KeepsList(list: seq<nat>)
    ensures Keep(list, {}) == list
  {
    if list != [] {
      KeepsList(list[..|list| - 1]);
    }
  }

  lemma KeepsOthers(p: Program, home: seq<nat>, erased: set<nat>, op: nat)
    requires Placed(p.blocks, home) && In(p.blocks, home, op)
    ensures forall b :: 0 <= b < |p.blocks| && b != home[op] ==>
        Keep(p.blocks[b], erased + {op}) == Keep(p.blocks[b], erased)
  {
    forall b | 0 <= b < |p.blocks| && b != home[op]
      ensures Keep(p.blocks[b], erased + {op}) == Keep(p.blocks[b], erased)
    {
      KeepsAbsent(p.blocks[b], erased, op);
    }
  }
}
