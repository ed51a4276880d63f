/** What filling one loop does to the owners of blocks and to the nesting of loops. */
module LoopFilling {
  import opened FiniteSets

  /** A part of a loop body: a block, or a whole inner loop, named by its header. */
  datatype Item = Node(node: nat) | Inner(header: nat)

  // ----- what meeting the nodes of a loop does -----

  /** Some node of `met` belonged to the loop of `x`. */
  ghost predicate Touched(toLoop: map<nat, nat>, met: set<nat>, x: nat) {
    exists n :: n in met && n in toLoop && toLoop[n] == x
  }

  /** After meeting the nodes of `met`: unowned ones belong to `h`, and loops touched that had no outer loop
      are inner loops of `h`; `items` are the new parts of its body. */
  ghost predicate Met(toLoop: map<nat, nat>, outer: map<nat, nat>, h: nat, met: set<nat>,
                      toLoop': map<nat, nat>, outer': map<nat, nat>, items: seq<Item>) {
    && (forall n :: n in toLoop' <==> n in toLoop || n in met)
    && (forall n :: n in toLoop' ==> toLoop'[n] == if n in toLoop then toLoop[n] else h)
    && (forall x :: x in outer' <==> x in outer || Touched(toLoop, met, x))
    && (forall x :: x in outer' ==> outer'[x] == if x in outer then outer[x] else h)
    && NoRepeat(items)
    && (forall n: nat :: Node(n) in items <==> n in met && n !in toLoop)
    && (forall x: nat :: Inner(x) in items <==> x !in outer && Touched(toLoop, met, x))
  }

  lemma NoRepeatAppend(items: seq<Item>, item: Item)
    requires NoRepeat(items) && item !in items
    ensures NoRepeat(items + [item])
  {
    assert (items + [item])[..|items|] == items;
  }

  lemma TouchedGrows(toLoop: map<nat, nat>, met: set<nat>, n: nat)
    ensures forall x :: Touched(toLoop, met + {n}, x) <==>
        Touched(toLoop, met, x) || (n in toLoop && toLoop[n] == x)
  {
    forall x ensures Touched(toLoop, met + {n}, x) <==> Touched(toLoop, met, x) || (n in toLoop && toLoop[n] == x) {
      if Touched(toLoop, met, x) {
        var k :| k in met && k in toLoop && toLoop[k] == x;
        assert k in met + {n};
      }
      if n in toLoop && toLoop[n] == x {
        assert n in met + {n};
      }
    }
  }

  lemma MetNode(toLoop: map<nat, nat>, outer: map<nat, nat>, h: nat, met: set<nat>,
                toLoop': map<nat, nat>, outer': map<nat, nat>, items: seq<Item>, n: nat)
    requires Met(toLoop, outer, h, met, toLoop', outer', items) && n !in toLoop'
    ensures Met(toLoop, outer, h, met + {n}, toLoop'[n := h], outer', items + [Node(n)])
  {
    TouchedGrows(toLoop, met, n);
    NoRepeatAppend(items, Node(n));
  }

  lemma MetInner(toLoop: map<nat, nat>, outer: map<nat, nat>, h: nat, met: set<nat>,
                 toLoop': map<nat, nat>, outer': map<nat, nat>, items: seq<Item>, n: nat)
    requires Met(toLoop, outer, h, met, toLoop', outer', items) && n in toLoop' && n !in met && toLoop'[n] !in outer'
    ensures Met(toLoop, outer, h, met + {n}, toLoop', outer'[toLoop'[n] := h], items + [Inner(toLoop'[n])])
  {
    TouchedGrows(toLoop, met, n);
    NoRepeatAppend(items, Inner(toLoop'[n]));
  }

  lemma MetKnown(toLoop: map<nat, nat>, outer: map<nat, nat>, h: nat, met: set<nat>,
                 toLoop': map<nat, nat>, outer': map<nat, nat>, items: seq<Item>, n: nat)
    requires Met(toLoop, outer, h, met, toLoop', outer', items) && n in toLoop' && n !in met && toLoop'[n] in outer'
    ensures Met(toLoop, outer, h, met + {n}, toLoop', outer', items)
  {
    TouchedGrows(toLoop, met, n);
  }

  /** The owners, the outer loops and the new parts of the body during the search for one loop. */
  datatype Filling = Filling(toLoop: map<nat, nat>, outer: map<nat, nat>, items: seq<Item>)

  function MeetOne(f: Filling, h: nat, n: nat): Filling {
    if n !in f.toLoop then f.(toLoop := f.toLoop[n := h], items := f.items + [Node(n)])
    else if f.toLoop[n] !in f.outer then
      f.(outer := f.outer[f.toLoop[n] := h], items := f.items + [Inner(f.toLoop[n])])
    else f
  }

  function MeetAll(f: Filling, h: nat, ns: seq<nat>): Filling {
    if ns == [] then f else MeetOne(MeetAll(f, h, ns[..|ns| - 1]), h, ns[|ns| - 1])
  }

  lemma {:induction false} MeetAllIs(toLoop: map<nat, nat>, outer: map<nat, nat>, h: nat, ns: seq<nat>)
    requires forall i, j :: 0 <= i < |ns| && 0 <= j < |ns| && ns[i] == ns[j] ==> i == j
    ensures var f := MeetAll(Filling(toLoop, outer, []), h, ns);
            Met(toLoop, outer, h, Elements(ns), f.toLoop, f.outer, f.items)
  {
    if ns != [] {
      var front, n := ns[..|ns| - 1], ns[|ns| - 1];
      MeetAllIs(toLoop, outer, h, front);
      var f := MeetAll(Filling(toLoop, outer, []), h, front);
      assert Elements(ns) == Elements(front) + {n};
      assert n !in Elements(front);
      if n !in f.toLoop {
        MetNode(toLoop, outer, h, Elements(front), f.toLoop, f.outer, f.items, n);
      } else if f.toLoop[n] !in f.outer {
        MetInner(toLoop, outer, h, Elements(front), f.toLoop, f.outer, f.items, n);
      } else {
        MetKnown(toLoop, outer, h, Elements(front), f.toLoop, f.outer, f.items, n);
      }
    }
  }

  /** The latches that belonged to no loop yet belong to the loop of `h`. */
  ghost predicate Associated(toLoop: map<nat, nat>, h: nat, latches: seq<nat>, toLoop': map<nat, nat>) {
    && (forall n :: n in toLoop' <==> n in toLoop || n in latches)
    && (forall n :: n in toLoop' ==> toLoop'[n] == if n in toLoop then toLoop[n] else h)
  }
}
