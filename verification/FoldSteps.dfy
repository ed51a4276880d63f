/** The steps the local optimisations take, each one that programs run alike under. */
module FoldSteps {
  import opened Wrappers
  import opened Graphs
  import opened Arithmetic
  import opened Occurrences
  import opened Code
  import opened Runs
  import opened Rewriting
  import opened DefUse
  import opened Equivalence

  lemma AboveTransitive(g: Graph, entry: nat, l: Listing, a: nat, b: nat, c: nat)
    requires Good(g, entry, l)
    requires Above(g, entry, l.p.blocks, l.home, a, b) && Above(g, entry, l.p.blocks, l.home, b, c)
    ensures Above(g, entry, l.p.blocks, l.home, a, c)
  {
    var x, y, z := l.home[a], l.home[b], l.home[c];
    if x == y && y == z {
      PrecedesTransitive(l.p.blocks[x], a, b, c);
    } else if x != y && y != z {
      DominatesTransitive(g, entry, x, y, z);
      if x == z {
        DominatesStrict(g, entry, x, y);
      }
    }
  }

  // ----- changing the inputs of one instruction -----

  ghost function Rewired(l: Listing, u: nat, inputs: seq<nat>): Listing
    requires u < |l.p.nodes|
  {
    l.(p := l.p.(nodes := l.p.nodes[u := l.p.nodes[u].(inputs := inputs)]))
  }

  lemma SameMeaningHere(nodes: seq<Node>, nodes': seq<Node>, u: nat, env: map<nat, int>)
    requires u < |nodes| && SameShape(nodes, nodes') && nodes'[u] == nodes[u] && Closed(nodes)
    ensures SameMeaning(nodes, nodes', u, env)
  {
    var vs := nodes[u].inputs;
    forall i | 0 <= i < |vs| ensures Val(nodes', env, vs[i]) == Val(nodes, env, vs[i]) {
      assert ReadsValue(nodes[u], vs[i]);
      SameValue(nodes, nodes', env, vs[i]);
    }
    SameVals(nodes, nodes', env, vs, vs);
  }

  lemma {:induction false} SameVals(nodes: seq<Node>, nodes': seq<Node>, env: map<nat, int>, vs: seq<nat>,
                                    vs': seq<nat>)
    requires |vs'| == |vs| && forall i :: 0 <= i < |vs| ==> Val(nodes', env, vs'[i]) == Val(nodes, env, vs[i])
    ensures Vals(nodes', env, vs') == Vals(nodes, env, vs)
  {
    if vs != [] {
      SameVals(nodes, nodes', env, vs[..|vs| - 1], vs'[..|vs| - 1]);
    }
  }

  lemma RewireStep(g: Graph, entry: nat, a: Listing, u: nat, inputs: seq<nat>)
    requires Good(g, entry, a) && u < |a.p.nodes| && !a.p.nodes[u].op.Phi?
             && forall v :: v in inputs ==> v < |a.p.nodes|
    requires In(a.p.blocks, a.home, u) ==>
        MeansTheSame(g, entry, a, Rewired(a, u, inputs).p.nodes, u)
    requires In(a.p.blocks, a.home, u) ==> forall k :: k in inputs && Writes(a.p.nodes, k) ==>
        Above(g, entry, a.p.blocks, a.home, k, u)
    requires In(a.p.blocks, a.home, u) || IsCheck(a.p.nodes[u]) ==> |inputs| == |a.p.nodes[u].inputs|
    ensures Step(g, entry, a, Rewired(a, u, inputs))
  {
    var b := Rewired(a, u, inputs);
    forall w: nat | w < |a.p.nodes| && In(a.p.blocks, a.home, w) ensures MeansTheSame(g, entry, a, b.p.nodes, w) {
      if w != u {
        forall env ensures SameMeaning(a.p.nodes, b.p.nodes, w, env) {
          SameMeaningHere(a.p.nodes, b.p.nodes, w, env);
        }
      }
    }
    RewiredSsa(g, entry, a, u, inputs);
    RewiredClosed(a.p.nodes, u, inputs);
  }

  lemma RewiredClosed(nodes: seq<Node>, u: nat, inputs: seq<nat>)
    requires Closed(nodes) && u < |nodes| && !nodes[u].op.Phi? && forall v :: v in inputs ==> v < |nodes|
    ensures Closed(nodes[u := nodes[u].(inputs := inputs)])
  {
    var nodes' := nodes[u := nodes[u].(inputs := inputs)];
    forall w, v: nat | 0 <= w < |nodes'| && ReadsValue(nodes'[w], v) ensures v < |nodes'| {
      if w != u {
        assert ReadsValue(nodes[w], v);
      }
    }
  }

  lemma RewiredSsa(g: Graph, entry: nat, a: Listing, u: nat, inputs: seq<nat>)
    requires Good(g, entry, a) && u < |a.p.nodes| && !a.p.nodes[u].op.Phi?
    requires In(a.p.blocks, a.home, u) || IsCheck(a.p.nodes[u]) ==> |inputs| == |a.p.nodes[u].inputs|
    requires In(a.p.blocks, a.home, u) ==> forall k :: k in inputs && Writes(a.p.nodes, k) ==>
        Above(g, entry, a.p.blocks, a.home, k, u)
    ensures Ssa(g, entry, Rewired(a, u, inputs).p, a.home)
  {
    var b := Rewired(a, u, inputs);
    forall w: nat | In(a.p.blocks, a.home, w) && w < |a.p.nodes| && !a.p.nodes[w].op.Phi?
      ensures OperandsAbove(g, entry, b.p, a.home, w)
    {
      forall k | k in Kills(b.p.nodes, w) ensures Above(g, entry, a.p.blocks, a.home, k, w) {
        SameWrites(a, u, inputs, k);
        assert w != u ==> k in Kills(a.p.nodes, w);
      }
    }
  }

  lemma SameWrites(a: Listing, u: nat, inputs: seq<nat>, k: nat)
    requires u < |a.p.nodes| && (IsCheck(a.p.nodes[u]) ==> |inputs| == |a.p.nodes[u].inputs|)
    ensures Writes(Rewired(a, u, inputs).p.nodes, k) ==> Writes(a.p.nodes, k)
  {
  }

  /** Swapping the operands of an addition or an or. */
  lemma SwapStep(g: Graph, entry: nat, a: Listing, u: nat)
    requires Good(g, entry, a) && u < |a.p.nodes| && IsPure(a.p.nodes[u])
    requires a.p.nodes[u].op.oper.Add? || a.p.nodes[u].op.oper.Or?
    ensures Step(g, entry, a, Rewired(a, u, [a.p.nodes[u].inputs[1], a.p.nodes[u].inputs[0]]))
  {
    var n := a.p.nodes[u];
    var inputs := [n.inputs[1], n.inputs[0]];
    var b := Rewired(a, u, inputs);
    forall v | v in inputs ensures v in n.inputs && v < |a.p.nodes| {
      assert ReadsValue(n, v);
    }
    forall env ensures SameMeaning(a.p.nodes, b.p.nodes, u, env) {
      assert inputs[0] in inputs && inputs[1] in inputs;
      SameValue(a.p.nodes, b.p.nodes, env, n.inputs[0]);
      SameValue(a.p.nodes, b.p.nodes, env, n.inputs[1]);
      Commutes(n.op.oper, n.ty, Val(a.p.nodes, env, n.inputs[0]), Val(a.p.nodes, env, n.inputs[1]));
    }
    RewireStep(g, entry, a, u, inputs);
  }

  /** Dropping the inputs of an instruction that is in no block. */
  lemma ClearStep(g: Graph, entry: nat, a: Listing, u: nat)
    requires Good(g, entry, a) && u < |a.p.nodes| && !In(a.p.blocks, a.home, u)
    requires IsPure(a.p.nodes[u])
    ensures Step(g, entry, a, Rewired(a, u, []))
  {
    RewireStep(g, entry, a, u, []);
  }

  // ----- redirecting the users of an instruction -----

  /** Wherever `x` may run, it gives the value of `y`. */
  ghost predicate SameResult(g: Graph, entry: nat, l: Listing, x: nat, y: nat)
    requires x < |l.p.nodes|
  {
    IsPure(l.p.nodes[x]) && forall env :: AboveSettled(g, entry, l.p, l.home, x, env) ==>
      Result(l.p.nodes, l.p.nodes[x], env) == Some(Val(l.p.nodes, env, y))
  }

  /** What is settled below an instruction is settled at it. */
  lemma SettledBelow(g: Graph, entry: nat, l: Listing, x: nat, u: nat, env: map<nat, int>)
    requires Good(g, entry, l) && Above(g, entry, l.p.blocks, l.home, x, u)
    requires AboveSettled(g, entry, l.p, l.home, u, env)
    ensures AboveSettled(g, entry, l.p, l.home, x, env)
  {
    forall a: nat | a < |l.p.nodes| && !l.p.nodes[a].op.Phi? && Above(g, entry, l.p.blocks, l.home, a, x)
      ensures Settled(l.p.nodes, a, env)
    {
      AboveTransitive(g, entry, l, a, x, u);
    }
  }

  lemma RedirectedShape(nodes: seq<Node>, nodes': seq<Node>, x: nat, y: nat)
    requires Redirected(nodes, nodes', x, y) && Closed(nodes) && y < |nodes|
    ensures SameShape(nodes, nodes') && Closed(nodes')
    ensures forall u :: 0 <= u < |nodes| ==> |nodes'[u].inputs| == |nodes[u].inputs|
  {
    forall u | 0 <= u < |nodes| ensures |nodes'[u].inputs| == |nodes[u].inputs| {
      RedirectAt(nodes[u].inputs, x, y);
    }
    forall u, v: nat | 0 <= u < |nodes'| && ReadsValue(nodes'[u], v) ensures v < |nodes'| {
      RedirectMembers(nodes[u].inputs, x, y, v);
      assert v == y || ReadsValue(nodes[u], v);
    }
  }

  lemma RedirectMeans(g: Graph, entry: nat, a: Listing, b: Listing, x: nat, y: nat, u: nat, env: map<nat, int>)
    requires Good(g, entry, a) && Redirected(a.p.nodes, b.p.nodes, x, y) && SameShape(a.p.nodes, b.p.nodes)
    requires x < |a.p.nodes| && y < |a.p.nodes| && SameResult(g, entry, a, x, y) && In(a.p.blocks, a.home, x)
    requires u < |a.p.nodes| && In(a.p.blocks, a.home, u) && AboveSettled(g, entry, a.p, a.home, u, env)
    ensures SameMeaning(a.p.nodes, b.p.nodes, u, env)
  {
    var n, n' := a.p.nodes[u], b.p.nodes[u];
    RedirectAt(n.inputs, x, y);
    if !n.op.Phi? {
      forall i | 0 <= i < |n.inputs| ensures Val(b.p.nodes, env, n'.inputs[i]) == Val(a.p.nodes, env, n.inputs[i]) {
        if n.inputs[i] == x {
          assert x in Kills(a.p.nodes, u);
          assert Settled(a.p.nodes, x, env);
          SettledBelow(g, entry, a, x, u, env);
          SameValue(a.p.nodes, b.p.nodes, env, y);
        } else {
          assert ReadsValue(n, n.inputs[i]);
          SameValue(a.p.nodes, b.p.nodes, env, n.inputs[i]);
        }
      }
      SameVals(a.p.nodes, b.p.nodes, env, n.inputs, n'.inputs);
    }
  }

  lemma RedirectSsa(g: Graph, entry: nat, a: Listing, b: Listing, x: nat, y: nat)
    requires Good(g, entry, a) && Redirected(a.p.nodes, b.p.nodes, x, y) && b.p.blocks == a.p.blocks && b.home == a.home
    requires SameShape(a.p.nodes, b.p.nodes)
             && forall u :: 0 <= u < |a.p.nodes| ==> |b.p.nodes[u].inputs| == |a.p.nodes[u].inputs|
    requires x < |a.p.nodes| && y < |a.p.nodes| && IsPure(a.p.nodes[x]) && In(a.p.blocks, a.home, x)
    requires Writes(a.p.nodes, y) ==> Above(g, entry, a.p.blocks, a.home, y, x)
    ensures Ssa(g, entry, b.p, b.home)
  {
    forall u: nat | In(a.p.blocks, a.home, u) && u < |b.p.nodes| && !b.p.nodes[u].op.Phi?
      ensures OperandsAbove(g, entry, b.p, a.home, u)
    {
      forall k | k in Kills(b.p.nodes, u) ensures Above(g, entry, a.p.blocks, a.home, k, u) {
        RedirectMembers(a.p.nodes[u].inputs, x, y, k);
        assert Writes(a.p.nodes, k);
        if k !in a.p.nodes[u].inputs {
          assert x in Kills(a.p.nodes, u);
          AboveTransitive(g, entry, a, y, x, u);
        } else {
          assert k in Kills(a.p.nodes, u);
        }
      }
    }
  }

  /** Users of `x` may use `y` instead. */
  lemma RedirectStep(g: Graph, entry: nat, a: Listing, b: Listing, x: nat, y: nat)
    requires Good(g, entry, a) && Redirected(a.p.nodes, b.p.nodes, x, y) && b.p.blocks == a.p.blocks && b.home == a.home
    requires x < |a.p.nodes| && y < |a.p.nodes| && SameResult(g, entry, a, x, y) && In(a.p.blocks, a.home, x)
    requires Writes(a.p.nodes, y) ==> Above(g, entry, a.p.blocks, a.home, y, x)
    ensures Step(g, entry, a, b)
  {
    RedirectedShape(a.p.nodes, b.p.nodes, x, y);
    RedirectSsa(g, entry, a, b, x, y);
    forall u: nat | u < |a.p.nodes| && In(a.p.blocks, a.home, u) ensures MeansTheSame(g, entry, a, b.p.nodes, u) {
      forall env | AboveSettled(g, entry, a.p, a.home, u, env) ensures SameMeaning(a.p.nodes, b.p.nodes, u, env) {
        RedirectMeans(g, entry, a, b, x, y, u, env);
      }
    }
  }

  // ----- taking out and putting in -----

  lemma InKept(blocks: seq<seq<nat>>, home: seq<nat>, x: nat, u: nat)
    ensures In(KeepBlocks(blocks, {x}), home, u) <==> In(blocks, home, u) && u != x
  {
    if u < |home| && home[u] < |blocks| {
      KeepMembers(blocks[home[u]], {x}, u);
    }
  }

  lemma AboveKept(g: Graph, entry: nat, blocks: seq<seq<nat>>, home: seq<nat>, x: nat, a: nat, b: nat)
    requires a != x && b != x
    ensures Above(g, entry, KeepBlocks(blocks, {x}), home, a, b) <==> Above(g, entry, blocks, home, a, b)
  {
    InKept(blocks, home, x, a);
    InKept(blocks, home, x, b);
    if a < |home| && home[a] < |blocks| {
      KeepsOrder(blocks[home[a]], {x}, a, b);
    }
  }

  lemma PlacedKept(blocks: seq<seq<nat>>, home: seq<nat>, x: nat)
    requires Placed(blocks, home)
    ensures Placed(KeepBlocks(blocks, {x}), home)
  {
    var kept := KeepBlocks(blocks, {x});
    forall b, id: nat | 0 <= b < |kept| && id in kept[b] ensures AtHome(home, b, id) {
      KeepMembers(blocks[b], {x}, id);
    }
    forall b | 0 <= b < |kept| ensures NoDuplicates(kept[b]) {
      KeepsDistinct(blocks[b], {x});
    }
  }

  lemma SsaKept(g: Graph, entry: nat, a: Listing, x: nat)
    requires Placed(a.p.blocks, a.home) && Ssa(g, entry, a.p, a.home) && Dead(a.p, a.home, x)
    ensures Ssa(g, entry, Without(a.p, x), a.home)
  {
    var kept := KeepBlocks(a.p.blocks, {x});
    forall u: nat | In(kept, a.home, u) && u < |a.p.nodes| && !a.p.nodes[u].op.Phi?
      ensures OperandsAbove(g, entry, Without(a.p, x), a.home, u)
    {
      InKept(a.p.blocks, a.home, x, u);
      forall k | k in Kills(a.p.nodes, u) ensures Above(g, entry, kept, a.home, k, u) {
        assert ReadsValue(a.p.nodes[u], k);
        AboveKept(g, entry, a.p.blocks, a.home, x, k, u);
      }
    }
  }

  lemma EraseStep(g: Graph, entry: nat, a: Listing, x: nat)
    requires Good(g, entry, a) && Dead(a.p, a.home, x) && NeverFails(g, entry, a.p, a.home, x)
    ensures Step(g, entry, a, Listing(Without(a.p, x), a.home))
  {
    PlacedKept(a.p.blocks, a.home, x);
    SsaKept(g, entry, a, x);
    forall b | 0 <= b < |a.p.blocks| && Keep(a.p.blocks[b], {x}) != [] ensures a.p.blocks[b] != [] {
    }
    assert Erases(g, entry, a, Listing(Without(a.p, x), a.home));
  }

  /** One more instruction, in no block yet. */
  ghost function Extended(a: Listing, n: Node, h: nat): Listing {
    Listing(a.p.(nodes := a.p.nodes + [n]), a.home + [h])
  }

  lemma ExtendStep(g: Graph, entry: nat, a: Listing, n: Node, h: nat)
    requires Good(g, entry, a) && forall v: nat :: ReadsValue(n, v) ==> v < |a.p.nodes|
    ensures Step(g, entry, a, Extended(a, n, h)) && !In(a.p.blocks, a.home + [h], |a.p.nodes|)
  {
    var b := Extended(a, n, h);
    forall u: nat ensures In(b.p.blocks, b.home, u) <==> In(a.p.blocks, a.home, u) {
    }
    ExtendedSsa(g, entry, a, n, h);
    forall u, v: nat | 0 <= u < |b.p.nodes| && ReadsValue(b.p.nodes[u], v) ensures v < |b.p.nodes| {
      assert u < |a.p.nodes| ==> ReadsValue(a.p.nodes[u], v);
    }
    forall u: nat | u < |a.p.nodes| && In(a.p.blocks, a.home, u) ensures MeansTheSame(g, entry, a, b.p.nodes, u) {
      forall env ensures SameMeaning(a.p.nodes, b.p.nodes, u, env) {
        SameMeaningHere(a.p.nodes, b.p.nodes, u, env);
      }
    }
  }

  lemma ExtendedSsa(g: Graph, entry: nat, a: Listing, n: Node, h: nat)
    requires Good(g, entry, a)
    ensures Placed(a.p.blocks, a.home + [h]) && Ssa(g, entry, Extended(a, n, h).p, a.home + [h])
  {
    var b := Extended(a, n, h);
    forall u: nat ensures In(b.p.blocks, b.home, u) <==> In(a.p.blocks, a.home, u) {
    }
    forall u: nat | In(b.p.blocks, b.home, u) && u < |b.p.nodes| && !b.p.nodes[u].op.Phi?
      ensures OperandsAbove(g, entry, b.p, b.home, u)
    {
      forall k | k in Kills(b.p.nodes, u) ensures Above(g, entry, b.p.blocks, b.home, k, u) {
        assert ReadsValue(a.p.nodes[u], k);
        assert k in Kills(a.p.nodes, u);
      }
    }
  }

  lemma {:induction false} KeepAbsent(list: seq<nat>, x: nat)
    requires x !in list
    ensures Keep(list, {x}) == list
  {
    if list != [] {
      KeepAbsent(list[..|list| - 1], x);
    }
  }

  lemma {:induction false} KeepInserted(list: seq<nat>, z: nat, x: nat)
    requires x !in list && x != z
    ensures Keep(InsertBefore(list, z, x), {x}) == list
  {
    if list != [] {
      var front, last := list[..|list| - 1], list[|list| - 1];
      if last == z {
        KeepAbsent(front, x);
        KeepAppend(front, x, {x});
        KeepAppend(front + [x], z, {x});
        assert front + [x, z] == front + [x] + [z];
      } else {
        KeepInserted(front, z, x);
        KeepAppend(InsertBefore(front, z, x), last, {x});
      }
    }
  }

  lemma {:induction false} KeepJoin(a: seq<nat>, b: seq<nat>, x: nat)
    ensures Keep(a + b, {x}) == Keep(a, {x}) + Keep(b, {x})
  {
    if b == [] {
      assert a + b == a;
    } else {
      KeepJoin(a, b[..|b| - 1], x);
      assert (a + b)[..|a + b| - 1] == a + b[..|b| - 1];
    }
  }

  lemma {:induction false} InsertJoin(a: seq<nat>, z: nat, b: seq<nat>, x: nat)
    requires z !in b
    ensures InsertBefore(a + [z] + b, z, x) == a + [x, z] + b
  {
    if b == [] {
      assert a + [z] + b == a + [z];
    } else {
      InsertJoin(a, z, b[..|b| - 1], x);
      assert (a + [z] + b)[..|a + [z] + b| - 1] == a + [z] + b[..|b| - 1];
    }
  }

  /** An instruction is put in front of another one that then goes: it takes its place. */
  lemma PutInPlace(a: seq<nat>, z: nat, b: seq<nat>, x: nat)
    requires z !in a && z !in b && x != z
    ensures Keep(InsertBefore(a + [z] + b, z, x), {z}) == a + [x] + b
  {
    InsertJoin(a, z, b, x);
    KeepJoin(a + [x, z], b, z);
    KeepJoin(a, [x, z], z);
    KeepAbsent(a, z);
    KeepAbsent(b, z);
    KeepFirst(x, z);
  }

  lemma KeepFirst(x: nat, z: nat)
    requires x != z
    ensures Keep([x, z], {z}) == [x]
  {
    assert [x, z][..1] == [x];
    KeepAbsent([x], z);
  }

  lemma {:induction false} InsertedMembers(list: seq<nat>, z: nat, x: nat, u: nat)
    requires z in list
    ensures u in InsertBefore(list, z, x) <==> u in list || u == x
  {
    var front, last := list[..|list| - 1], list[|list| - 1];
    assert list == front + [last];
    if last != z {
      InsertedMembers(front, z, x, u);
    }
  }

  lemma {:induction false} InsertedDistinct(list: seq<nat>, z: nat, x: nat)
    requires z in list && x !in list && NoDuplicates(list)
    ensures NoDuplicates(InsertBefore(list, z, x))
  {
    var front, last := list[..|list| - 1], list[|list| - 1];
    if last == z {
      assert (front + [x, z])[..|front| + 1] == front + [x];
      assert (front + [x])[..|front|] == front;
    } else {
      InsertedDistinct(front, z, x);
      InsertedMembers(front, z, x, last);
      assert (InsertBefore(front, z, x) + [last])[..|InsertBefore(front, z, x)|] == InsertBefore(front, z, x);
    }
  }

  ghost function Inserted(a: Listing, z: nat, x: nat): Listing
    requires z < |a.home| && a.home[z] < |a.p.blocks|
  {
    var b := a.home[z];
    a.(p := a.p.(blocks := a.p.blocks[b := InsertBefore(a.p.blocks[b], z, x)]))
  }

  lemma InsertedPlaced(blocks: seq<seq<nat>>, home: seq<nat>, z: nat, x: nat)
    requires Placed(blocks, home) && In(blocks, home, z) && !In(blocks, home, x) && x < |home| && home[x] == home[z]
    ensures var blocks' := blocks[home[z] := InsertBefore(blocks[home[z]], z, x)];
            Placed(blocks', home) && KeepBlocks(blocks', {x}) == blocks
  {
    var h := home[z];
    var blocks' := blocks[h := InsertBefore(blocks[h], z, x)];
    InsertedDistinct(blocks[h], z, x);
    forall b, id: nat | 0 <= b < |blocks'| && id in blocks'[b] ensures AtHome(home, b, id) {
      if b == h {
        InsertedMembers(blocks[h], z, x, id);
      }
      assert id == x || id in blocks[b];
    }
    forall b | 0 <= b < |blocks'| ensures NoDuplicates(blocks'[b]) {
    }
    forall b | 0 <= b < |blocks| ensures Keep(blocks'[b], {x}) == blocks[b] {
      if b == h {
        KeepInserted(blocks[h], z, x);
      } else {
        KeepAbsent(blocks[b], x);
      }
    }
  }

  lemma InsertedSsa(g: Graph, entry: nat, a: Listing, z: nat, x: nat)
    requires Good(g, entry, a) && In(a.p.blocks, a.home, z) && !In(a.p.blocks, a.home, x) && x < |a.home|
    requires a.home[x] == a.home[z] && x < |a.p.nodes|
    requires forall k :: k in Kills(a.p.nodes, x) ==> Above(g, entry, a.p.blocks, a.home, k, z)
    requires forall u: nat :: u < |a.p.nodes| && In(a.p.blocks, a.home, u) ==> !ReadsValue(a.p.nodes[u], x)
    ensures Ssa(g, entry, Inserted(a, z, x).p, a.home)
  {
    var blocks' := Inserted(a, z, x).p.blocks;
    InsertedPlaced(a.p.blocks, a.home, z, x);
    forall u: nat | In(blocks', a.home, u) && u < |a.p.nodes| && !a.p.nodes[u].op.Phi?
      ensures OperandsAbove(g, entry, Inserted(a, z, x).p, a.home, u)
    {
      InKept(blocks', a.home, x, u);
      forall k | k in Kills(a.p.nodes, u) ensures Above(g, entry, blocks', a.home, k, u) {
        if u == x {
          InsertedAbove(g, entry, a.p.blocks, a.home, z, x, k);
        } else {
          assert ReadsValue(a.p.nodes[u], k);
          AboveKept(g, entry, blocks', a.home, x, k, u);
        }
      }
    }
  }

  /** Above what is put in stands what stood above the place. */
  lemma InsertedAbove(g: Graph, entry: nat, blocks: seq<seq<nat>>, home: seq<nat>, z: nat, x: nat, k: nat)
    requires Placed(blocks, home) && In(blocks, home, z) && !In(blocks, home, x) && x < |home| && home[x] == home[z]
    requires k != x
    ensures var blocks' := blocks[home[z] := InsertBefore(blocks[home[z]], z, x)];
            Above(g, entry, blocks', home, k, x) <==> Above(g, entry, blocks, home, k, z)
  {
    var blocks' := blocks[home[z] := InsertBefore(blocks[home[z]], z, x)];
    InsertedMembers(blocks[home[z]], z, x, x);
    InsertedMembers(blocks[home[z]], z, x, k);
    InsertedOrder(blocks[home[z]], z, x, k);
  }

  lemma {:induction false} InsertedOrder(list: seq<nat>, z: nat, x: nat, k: nat)
    requires z in list && x !in list && NoDuplicates(list) && k != x
    ensures Precedes(InsertBefore(list, z, x), k, x) <==> Precedes(list, k, z)
  {
    var front, last := list[..|list| - 1], list[|list| - 1];
    if last == z {
      assert front + [x, z] == front + [x] + [z];
      PrecedesAppend(front + [x], z, k, x);
      PrecedesAppend(front, x, k, x);
    } else {
      InsertedOrder(front, z, x, k);
      PrecedesAppend(InsertBefore(front, z, x), last, k, x);
    }
  }

  /** Putting in an instruction whose operands stand above the place, before anybody reads it. */
  lemma InsertStep(g: Graph, entry: nat, a: Listing, z: nat, x: nat)
    requires Good(g, entry, a) && In(a.p.blocks, a.home, z) && !In(a.p.blocks, a.home, x) && x < |a.home|
    requires a.home[x] == a.home[z]
    requires forall k :: k in Kills(a.p.nodes, x) ==> Above(g, entry, a.p.blocks, a.home, k, z)
    requires IsPure(a.p.nodes[x]) ==> !a.p.nodes[x].op.oper.Shr?
    requires IsPure(a.p.nodes[x]) || a.p.nodes[x].op.Const?
    requires forall u: nat :: u < |a.p.nodes| ==> !ReadsValue(a.p.nodes[u], x)
    ensures Step(g, entry, a, Inserted(a, z, x)) && In(Inserted(a, z, x).p.blocks, a.home, x)
  {
    var b := Inserted(a, z, x);
    InsertedPlaced(a.p.blocks, a.home, z, x);
    InsertedSsa(g, entry, a, z, x);
    InsertedMembers(a.p.blocks[a.home[z]], z, x, x);
    assert Dead(b.p, b.home, x);
    assert a.p == Without(b.p, x);
    assert Erases(g, entry, b, a);
  }
}
