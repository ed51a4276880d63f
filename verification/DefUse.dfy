/** The def-use graph: every instruction lists its inputs, every value the instructions that use it. */
module DefUse {
  import opened Arithmetic
  import opened Occurrences
  import opened Code

  /** `u` is in the user set of `v` exactly when `v` is among its inputs. */
  ghost predicate UserIff(nodes: seq<Node>, users: seq<set<nat>>, v: nat, u: nat) {
    v < |users| ==> (u in users[v] <==> u < |nodes| && v in nodes[u].inputs)
  }

  ghost predicate Consistent(nodes: seq<Node>, users: seq<set<nat>>) {
    && |users| == |nodes|
    && (forall v: nat, u: nat :: UserIff(nodes, users, v, u))
    && (forall u, v {:trigger v in nodes[u].inputs} :: 0 <= u < |nodes| && v in nodes[u].inputs ==> v < |nodes|)
  }

  /** The inputs with `to` in place of `from`. */
  function Redirect(inputs: seq<nat>, from: nat, to: nat): seq<nat> {
    if inputs == [] then []
    else
      Redirect(inputs[..|inputs| - 1], from, to)
      + [if inputs[|inputs| - 1] == from then to else inputs[|inputs| - 1]]
  }

  lemma {:induction false} RedirectMembers(inputs: seq<nat>, from: nat, to: nat, v: nat)
    ensures v in Redirect(inputs, from, to) <==>
        (v in inputs && v != from) || (v == to && from in inputs)
  {
    if inputs != [] {
      RedirectMembers(inputs[..|inputs| - 1], from, to, v);
      assert inputs == inputs[..|inputs| - 1] + [inputs[|inputs| - 1]];
    }
  }

  lemma {:induction false} RedirectNone(inputs: seq<nat>, from: nat, to: nat)
    requires from !in inputs
    ensures Redirect(inputs, from, to) == inputs
  {
    if inputs != [] {
      RedirectNone(inputs[..|inputs| - 1], from, to);
    }
  }

  lemma {:induction false} RedirectAt(inputs: seq<nat>, from: nat, to: nat)
    ensures |Redirect(inputs, from, to)| == |inputs|
    ensures forall i :: 0 <= i < |inputs| ==>
        Redirect(inputs, from, to)[i] == if inputs[i] == from then to else inputs[i]
  {
    if inputs != [] {
      RedirectAt(inputs[..|inputs| - 1], from, to);
    }
  }

  ghost function RedirectNode(n: Node, from: nat, to: nat): Node {
    n.(inputs := Redirect(n.inputs, from, to))
  }

  /** All instructions with `to` in place of `from` among their inputs. */
  ghost predicate Redirected(nodes: seq<Node>, nodes': seq<Node>, from: nat, to: nat) {
    |nodes'| == |nodes| && forall u :: 0 <= u < |nodes| ==> nodes'[u] == RedirectNode(nodes[u], from, to)
  }

  lemma RedirectedConsistent(nodes: seq<Node>, users: seq<set<nat>>, nodes': seq<Node>, from: nat, to: nat)
    requires Consistent(nodes, users) && Redirected(nodes, nodes', from, to)
    requires from < |nodes| && to < |nodes| && from != to
    ensures Consistent(nodes', users[to := users[to] + users[from]][from := {}])
    ensures forall u :: 0 <= u < |nodes'| ==> from !in nodes'[u].inputs
  {
    var users' := users[to := users[to] + users[from]][from := {}];
    forall u: nat, v: nat | u < |nodes|
      ensures v in nodes'[u].inputs <==> (v in nodes[u].inputs && v != from) || (v == to && from in nodes[u].inputs)
    {
      RedirectMembers(nodes[u].inputs, from, to, v);
    }
    forall v: nat, u: nat ensures UserIff(nodes', users', v, u) {
      assert UserIff(nodes, users, v, u) && UserIff(nodes, users, from, u) && UserIff(nodes, users, to, u);
    }
  }

  class Body {
    var nodes: seq<Node>
    var users: seq<set<nat>>
    var blocks: seq<seq<nat>>
    /** The block an instruction belongs to. */
    var home: seq<nat>

    ghost predicate Valid()
      reads this
    {
      Consistent(nodes, users) && |home| == |nodes|
    }

    constructor ()
      ensures Valid() && nodes == [] && blocks == []
    {
      nodes, users, blocks, home := [], [], [], [];
    }

    method AddInput(inst: nat, val: nat)
      requires Valid() && inst < |nodes| && val < |nodes|
      modifies this`nodes, this`users
      ensures Valid()
      ensures nodes == old(nodes)[inst := old(nodes[inst]).(inputs := old(nodes[inst].inputs) + [val])]
    {
      users := users[val := users[val] + {inst}];
      nodes := nodes[inst := nodes[inst].(inputs := nodes[inst].inputs + [val])];
      forall v: nat, u: nat ensures UserIff(nodes, users, v, u) {
        assert UserIff(old(nodes), old(users), v, u);
      }
    }

    method Count(inst: nat, val: nat) returns (n: nat)
      requires inst < |nodes|
      ensures n == multiset(nodes[inst].inputs)[val]
    {
      n := 0;
      var inputs := nodes[inst].inputs;
      for i := 0 to |inputs|
        invariant n == multiset(inputs[..i])[val]
      {
        assert inputs[..i + 1] == inputs[..i] + [inputs[i]];
        if inputs[i] == val {
          n := n + 1;
        }
      }
      assert inputs[..|inputs|] == inputs;
    }

    /** Puts `newInput` in place of one input; the old one loses the user only if it was used once. */
    method SetInput(inst: nat, idx: nat, newInput: nat)
      requires Valid() && inst < |nodes| && idx < |nodes[inst].inputs| && newInput < |nodes|
      modifies this`nodes, this`users
      ensures Valid()
      ensures nodes == old(nodes)[inst := old(nodes[inst]).(inputs := old(nodes[inst].inputs)[idx := newInput])]
    {
      var inputs := nodes[inst].inputs;
      var inp := inputs[idx];
      assert inp in inputs;
      var n := Count(inst, inp);
      if n == 1 {
        users := users[inp := users[inp] - {inst}];
      }
      StillUsed(inputs, idx, newInput);
      nodes := nodes[inst := nodes[inst].(inputs := inputs[idx := newInput])];
      users := users[newInput := users[newInput] + {inst}];
      forall v: nat, u: nat ensures UserIff(nodes, users, v, u) {
        assert UserIff(old(nodes), old(users), v, u);
      }
    }

    method SwapInputs(inst: nat, lhs: nat, rhs: nat)
      requires Valid() && inst < |nodes| && lhs < |nodes[inst].inputs| && rhs < |nodes[inst].inputs|
      modifies this`nodes
      ensures Valid()
      ensures var ins := old(nodes[inst].inputs);
              nodes == old(nodes)[inst := old(nodes[inst]).(inputs := ins[lhs := ins[rhs]][rhs := ins[lhs]])]
    {
      var ins := nodes[inst].inputs;
      SwapMembers(ins, lhs, rhs);
      nodes := nodes[inst := nodes[inst].(inputs := ins[lhs := ins[rhs]][rhs := ins[lhs]])];
      forall v: nat, u: nat ensures UserIff(nodes, users, v, u) {
        assert UserIff(old(nodes), old(users), v, u);
      }
    }

    /** Drops all inputs. An input that is listed twice is not found among the users the second time: the
        assertion of the original fails, and `ok` is false. */
    method ClearInputs(inst: nat) returns (ok: bool)
      requires Valid() && inst < |nodes|
      modifies this`nodes, this`users
      ensures ok <==> NoDuplicates(old(nodes[inst].inputs))
      ensures ok ==> Valid() && nodes == old(nodes)[inst := old(nodes[inst]).(inputs := [])]
    {
      var inputs := nodes[inst].inputs;
      for i := 0 to |inputs|
        invariant nodes == old(nodes) && |users| == |nodes| && NoDuplicates(inputs[..i])
        invariant forall v :: 0 <= v < |nodes| ==>
            users[v] == if v in inputs[..i] then old(users[v]) - {inst} else old(users[v])
      {
        assert inputs[..i + 1][..i] == inputs[..i] && inputs[i] in inputs;
        assert UserIff(nodes, old(users), inputs[i], inst);
        if inst !in users[inputs[i]] {
          DuplicateWithin(inputs, i + 1);
          return false;
        }
        users := users[inputs[i] := users[inputs[i]] - {inst}];
      }
      assert inputs[..|inputs|] == inputs;
      nodes := nodes[inst := nodes[inst].(inputs := [])];
      forall v: nat, u: nat ensures UserIff(nodes, users, v, u) {
        assert UserIff(old(nodes), old(users), v, u);
      }
      ok := true;
    }

    method ReplaceInputs(user: nat, from: nat, to: nat)
      requires user < |nodes|
      modifies this`nodes
      ensures nodes == old(nodes)[user := RedirectNode(old(nodes[user]), from, to)]
    {
      var inputs := nodes[user].inputs;
      for i := 0 to |inputs|
        invariant |inputs| == |nodes[user].inputs| && user < |nodes|
        invariant inputs[..i] == Redirect(nodes[user].inputs[..i], from, to)
        invariant inputs[i..] == nodes[user].inputs[i..] && nodes == old(nodes)
      {
        assert nodes[user].inputs[..i + 1][..i] == nodes[user].inputs[..i];
        ghost var was := inputs;
        assert was[i] == was[i..][0] && was[i + 1..] == was[i..][1..];
        assert nodes[user].inputs[i + 1..] == nodes[user].inputs[i..][1..];
        if inputs[i] == from {
          inputs := inputs[i := to];
        }
        assert inputs[..i + 1] == was[..i] + [inputs[i]];
        assert inputs[i + 1..] == was[i + 1..];
        assert was[i] == nodes[user].inputs[i];
      }
      assert inputs[..|inputs|] == inputs && nodes[user].inputs[..|inputs|] == nodes[user].inputs;
      nodes := nodes[user := nodes[user].(inputs := inputs)];
    }

    /** Makes the users of `other` users of `self`. */
    method SetUsersFrom(self: nat, other: nat)
      requires Valid() && self < |nodes| && other < |nodes| && self != other
      modifies this`nodes, this`users
      ensures Valid() && Redirected(old(nodes), nodes, other, self)
      ensures users == old(users)[self := old(users[self]) + old(users[other])][other := {}]
      ensures forall u :: 0 <= u < |nodes| ==> other !in nodes[u].inputs
    {
      users := users[self := users[self] + users[other]];
      users := users[other := {}];
      var todo := users[self];
      forall u | 0 <= u < |nodes| && u !in todo ensures nodes[u] == RedirectNode(nodes[u], other, self) {
        assert UserIff(old(nodes), old(users), other, u);
        RedirectNone(nodes[u].inputs, other, self);
      }
      while todo != {}
        invariant |nodes| == |old(nodes)| && |users| == |nodes| && todo <= users[self]
        invariant users == old(users)[self := old(users[self]) + old(users[other])][other := {}]
        invariant forall u :: 0 <= u < |nodes| ==>
            nodes[u] == if u in todo then old(nodes[u]) else RedirectNode(old(nodes[u]), other, self)
      {
        var user: nat :| user in todo;
        assert UserIff(old(nodes), old(users), other, user) && UserIff(old(nodes), old(users), self, user);
        ReplaceInputs(user, other, self);
        todo := todo - {user};
      }
      RedirectedConsistent(old(nodes), old(users), nodes, other, self);
    }

    /** A new binary operation, in no block yet. */
    method NewBinOp(oper: Oper, lhs: nat, rhs: nat, bb: nat) returns (inst: nat)
      requires Valid() && lhs < |nodes| && rhs < |nodes|
      modifies this`nodes, this`users, this`home
      ensures Valid() && inst == |old(nodes)| && home == old(home) + [bb]
      ensures nodes == old(nodes) + [Node(Bin(oper), old(nodes[rhs].ty), [lhs, rhs])]
    {
      inst := NewInst(Bin(oper), nodes[rhs].ty, bb);
      ghost var n := nodes;
      AddInput(inst, lhs);
      AddInput(inst, rhs);
      assert nodes[inst].inputs == [lhs, rhs] && n[inst] == Node(Bin(oper), old(nodes[rhs].ty), []);
      assert nodes == old(nodes) + [nodes[inst]];
    }

    method NewInst(op: Op, ty: Ty, bb: nat) returns (inst: nat)
      requires Valid()
      modifies this`nodes, this`users, this`home
      ensures Valid() && inst == |old(nodes)| && home == old(home) + [bb]
      ensures nodes == old(nodes) + [Node(op, ty, [])]
    {
      inst := |nodes|;
      nodes, users, home := nodes + [Node(op, ty, [])], users + [{}], home + [bb];
      forall v: nat, u: nat ensures UserIff(nodes, users, v, u) {
        assert UserIff(old(nodes), old(users), v, u);
      }
      forall u, v | 0 <= u < |nodes| && v in nodes[u].inputs ensures v < |nodes| {
        assert u < |old(nodes)| ==> v in old(nodes)[u].inputs;
      }
    }

    /** Puts `newInst` in the place of `prior` and makes it the value its users read. */
    method ReplaceInst(prior: nat, newInst: nat)
      requires Valid() && prior < |nodes| && newInst < |nodes| && prior != newInst && home[prior] < |blocks|
      modifies this`nodes, this`users, this`blocks
      ensures Valid() && Redirected(old(nodes), nodes, prior, newInst)
      ensures var b := home[prior];
              blocks == old(blocks)[b := Keep(InsertBefore(old(blocks)[b], prior, newInst), {prior})]
    {
      SetUsersFrom(newInst, prior);
      var b := home[prior];
      blocks := blocks[b := Keep(InsertBefore(blocks[b], prior, newInst), {prior})];
    }

    /** Takes an instruction out of its block; without `ok` the original stops at an assertion. */
    method RemoveInst(inst: nat) returns (ok: bool)
      requires Valid() && inst < |nodes| && home[inst] < |blocks|
      modifies this`nodes, this`users, this`blocks
      ensures ok <==> NoDuplicates(old(nodes[inst].inputs))
      ensures ok ==> Valid() && nodes == old(nodes)[inst := old(nodes[inst]).(inputs := [])]
      ensures ok ==> blocks == old(blocks)[home[inst] := Keep(old(blocks[home[inst]]), {inst})]
    {
      ok := ClearInputs(inst);
      if ok {
        EraseInst(inst);
      }
    }

    method EraseInst(inst: nat)
      requires inst < |home| && home[inst] < |blocks|
      modifies this`blocks
      ensures blocks == old(blocks)[home[inst] := Keep(old(blocks[home[inst]]), {inst})]
    {
      blocks := blocks[home[inst] := Keep(blocks[home[inst]], {inst})];
    }
  }

  lemma StillUsed(inputs: seq<nat>, idx: nat, newInput: nat)
    requires idx < |inputs|
    ensures forall v: nat :: v in inputs[idx := newInput] <==>
        v == newInput || (v in inputs && (v != inputs[idx] || multiset(inputs)[inputs[idx]] > 1))
  {
    var after := inputs[idx := newInput];
    assert multiset(after) == multiset(inputs) - multiset{inputs[idx]} + multiset{newInput};
    forall v: nat ensures v in after <==> v in multiset(after) {
    }
    forall v: nat ensures v in inputs <==> v in multiset(inputs) {
    }
  }

  lemma SwapMembers(inputs: seq<nat>, lhs: nat, rhs: nat)
    requires lhs < |inputs| && rhs < |inputs|
    ensures var after := inputs[lhs := inputs[rhs]][rhs := inputs[lhs]];
            forall v: nat :: v in after <==> v in inputs
  {
    var after := inputs[lhs := inputs[rhs]][rhs := inputs[lhs]];
    forall v: nat ensures v in after <==> v in inputs {
      if v in inputs {
        var i :| 0 <= i < |inputs| && inputs[i] == v;
        assert after[if i == lhs then rhs else if i == rhs then lhs else i] == v;
      }
    }
  }

  lemma {:induction false} DuplicateWithin(inputs: seq<nat>, n: nat)
    requires 0 < n <= |inputs| && inputs[n - 1] in inputs[..n - 1]
    ensures !NoDuplicates(inputs)
  {
    if n == |inputs| {
    } else {
      var front := inputs[..|inputs| - 1];
      assert front[..n - 1] == inputs[..n - 1];
      DuplicateWithin(front, n);
    }
  }
}
