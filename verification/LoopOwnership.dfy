/** Who owns a block and which loop encloses another: the innermost one, whatever the search order. */
module LoopOwnership {
  import opened Wrappers
  import opened FiniteSets
  import opened Graphs
  import opened LoopSpec
  import opened LoopFilling

  /** The source of a back edge heads no loop, and no loop filled earlier has it. */
  ghost predicate LatchesOwn(g: Graph, l: Loops) {
    forall h, u :: h in l.latches && u in l.latches[h] ==>
        u !in l.latches && FirstLoop(g, l, |l.heads|, u) == Some(h)
  }

  /** The loop that a block belongs to in the end: a header to its own, another block to the innermost one it is
      in. */
  ghost function Owner(g: Graph, l: Loops, n: nat): Option<nat> {
    if n in l.latches then Some(n) else FirstLoop(g, l, |l.heads|, n)
  }

  /** Every inner loop has a block of its own that is not a source of a back edge of the next outer loop: the search
      for the outer loop, which starts at these sources, meets the inner one. */
  ghost predicate LoopsAreMet(g: Graph, l: Loops) {
    forall x, h :: x in l.latches && h in l.latches && FirstLoop(g, l, |l.heads|, x) == Some(h) ==> IsMet(g, l, x, h)
  }

  ghost predicate IsMet(g: Graph, l: Loops, x: nat, h: nat)
    requires h in l.latches
  {
    exists n :: Owner(g, l, n) == Some(x) && n !in l.latches[h]
  }

  /** If latches belong to their own loops, the header itself is such a block. */
  lemma OwnLatchesAreMet(g: Graph, l: Loops)
    requires LatchesOwn(g, l)
    ensures LoopsAreMet(g, l)
  {
    forall x, h | x in l.latches && h in l.latches && FirstLoop(g, l, |l.heads|, x) == Some(h)
      ensures IsMet(g, l, x, h)
    {
      assert Owner(g, l, x) == Some(x);
    }
  }

  /** After `i` loops have been filled: a header belongs to its own loop, another block to the first loop it
      lies in. */
  ghost predicate OwnersAt(g: Graph, l: Loops, i: nat, toLoop: map<nat, nat>)
    requires i <= |l.heads|
  {
    && (forall n :: n in toLoop <==> n in l.latches || FirstLoop(g, l, i, n).Some?)
    && (forall n :: n in toLoop ==> toLoop[n] == if n in l.latches then n else FirstLoop(g, l, i, n).value)
  }

  /** A loop lies in the first other loop that has its header. */
  ghost predicate OuterAt(g: Graph, l: Loops, i: nat, outer: map<nat, nat>)
    requires i <= |l.heads|
  {
    && (forall x :: x in outer <==> x in l.latches && FirstLoop(g, l, i, x).Some?)
    && (forall x :: x in outer ==> outer[x] == FirstLoop(g, l, i, x).value)
  }

  /** The parts of a body behind its latches: the blocks the loop owns and the loops right inside, each once. */
  ghost predicate BodyOk(g: Graph, l: Loops, h: nat, items: seq<Item>) {
    && h in l.latches && NoRepeat(items)
    && (forall n: nat :: Node(n) in items <==>
          n !in l.latches && n !in l.latches[h] && FirstLoop(g, l, |l.heads|, n) == Some(h))
    && (forall x: nat :: Inner(x) in items <==> x in l.latches && FirstLoop(g, l, |l.heads|, x) == Some(h))
  }

  /** A loop is the first one with `n` exactly when it has `n` and no earlier one does. */
  lemma FirstLoopAt(g: Graph, entry: nat, l: Loops, i: nat, n: nat)
    requires Natural(g, entry, l) && i < |l.heads|
    ensures FirstLoop(g, l, |l.heads|, n) == Some(l.heads[i])
            <==> FirstLoop(g, l, i, n).None? && InLoop(g, l, l.heads[i], n)
  {
    if FirstLoop(g, l, i, n).Some? {
      FirstLoopIs(g, l, i, n);
      FirstLoopStays(g, l, i, |l.heads|, n);
      EarlierOwner(g, entry, l, i, n);
    } else if InLoop(g, l, l.heads[i], n) {
      FirstLoopNext(g, l, i, n);
    } else {
      FirstLoopNot(g, entry, l, i, n, |l.heads|);
    }
  }

  lemma FirstLoopNext(g: Graph, l: Loops, i: nat, n: nat)
    requires i < |l.heads| && FirstLoop(g, l, i, n).None? && InLoop(g, l, l.heads[i], n)
    ensures FirstLoop(g, l, |l.heads|, n) == Some(l.heads[i])
  {
    assert FirstLoop(g, l, i + 1, n) == Some(l.heads[i]);
    FirstLoopStays(g, l, i + 1, |l.heads|, n);
  }

  lemma EarlierOwner(g: Graph, entry: nat, l: Loops, i: nat, n: nat)
    requires Natural(g, entry, l) && i < |l.heads| && FirstLoop(g, l, i, n).Some?
    ensures FirstLoop(g, l, i, n) != Some(l.heads[i])
  {
    FirstLoopIs(g, l, i, n);
    var k :| 0 <= k < i && l.heads[k] == FirstLoop(g, l, i, n).value;
    assert Ordered(g, entry, l.heads[k], l.heads[i]);
  }

  lemma {:induction false} FirstLoopNot(g: Graph, entry: nat, l: Loops, i: nat, n: nat, j: nat)
    requires Natural(g, entry, l) && i < |l.heads| && j <= |l.heads| && !InLoop(g, l, l.heads[i], n)
    ensures FirstLoop(g, l, j, n) != Some(l.heads[i])
  {
    if j > 0 {
      FirstLoopNot(g, entry, l, i, n, j - 1);
    }
  }

  lemma LatchInLoop(g: Graph, entry: nat, l: Loops, h: nat, u: nat)
    requires Natural(g, entry, l) && h in l.latches && u in l.latches[h]
    ensures InLoop(g, l, h, u)
  {
    assert IsLatch(g, entry, h, u);
    assert LatchPath(g, l, h, [u]);
  }

  /** The owner of a block lies inside every later loop that has the block. */
  lemma OwnerIsInside(g: Graph, entry: nat, l: Loops, i: nat, n: nat)
    requires Natural(g, entry, l) && i < |l.heads| && InLoop(g, l, l.heads[i], n) && Reachable(g, entry, n)
    requires FirstLoop(g, l, i, n).Some?
    ensures FirstLoop(g, l, i, n).value in l.heads && InLoop(g, l, l.heads[i], FirstLoop(g, l, i, n).value)
  {
    FirstLoopIs(g, l, i, n);
    var k :| 0 <= k < i && l.heads[k] == FirstLoop(g, l, i, n).value && InLoop(g, l, l.heads[k], n);
    assert Ordered(g, entry, l.heads[k], l.heads[i]);
    Nested(g, entry, l, l.heads[k], l.heads[i], n);
  }

  /** A loop without an outer one is touched by the search of the next loop exactly if its header lies in that. */
  lemma TouchedIff(g: Graph, entry: nat, l: Loops, i: nat, toLoop: map<nat, nat>, mid: map<nat, nat>, met: set<nat>,
                   x: nat)
    requires Natural(g, entry, l) && LoopsAreMet(g, l) && i < |l.heads| && OwnersAt(g, l, i, toLoop)
    requires var h := l.heads[i]; Associated(toLoop, h, l.latches[h], mid)
    requires forall n :: n in met <==> InLoop(g, l, l.heads[i], n) && n !in l.latches[l.heads[i]]
    requires forall n :: InLoop(g, l, l.heads[i], n) ==> Reachable(g, entry, n)
    requires FirstLoop(g, l, i, x).None?
    ensures Touched(mid, met, x) <==> x in l.latches && InLoop(g, l, l.heads[i], x)
  {
    if Touched(mid, met, x) {
      var n :| n in met && n in mid && mid[n] == x;
      TouchedAt(g, entry, l, i, toLoop, mid, n);
    }
    if x in l.latches && InLoop(g, l, l.heads[i], x) {
      FirstLoopAt(g, entry, l, i, x);
      assert l.heads[i] in l.heads;
      assert IsMet(g, l, x, l.heads[i]);
      var n :| Owner(g, l, n) == Some(x) && n !in l.latches[l.heads[i]];
      OwnedIsKnown(g, entry, l, i, toLoop, x, n);
    }
  }

  /** What an inner loop owns has its owner before the outer loop is filled, and lies in that. */
  lemma OwnedIsKnown(g: Graph, entry: nat, l: Loops, i: nat, toLoop: map<nat, nat>, x: nat, n: nat)
    requires Natural(g, entry, l) && i < |l.heads| && OwnersAt(g, l, i, toLoop)
    requires x in l.latches && InLoop(g, l, l.heads[i], x) && Owner(g, l, n) == Some(x)
    ensures n in toLoop && toLoop[n] == x && InLoop(g, l, l.heads[i], n)
  {
    if n !in l.latches {
      FirstLoopIs(g, l, |l.heads|, n);
      var k :| 0 <= k < |l.heads| && l.heads[k] == x && InLoop(g, l, l.heads[k], n)
               && forall j :: 0 <= j < k ==> !InLoop(g, l, l.heads[j], n);
      InnerInside(g, entry, l, x, l.heads[i], n);
      InnerIsEarlier(g, entry, l, i, k);
      OwnerStays(g, l, k, i, n);
    }
  }

  lemma InnerIsEarlier(g: Graph, entry: nat, l: Loops, i: nat, k: nat)
    requires Natural(g, entry, l) && i < |l.heads| && k < |l.heads| && InLoop(g, l, l.heads[i], l.heads[k])
    ensures k < i
  {
    HeaderDominates(g, entry, l, l.heads[i], l.heads[k]);
    assert i < k ==> Ordered(g, entry, l.heads[i], l.heads[k]);
  }

  lemma OwnerStays(g: Graph, l: Loops, k: nat, i: nat, n: nat)
    requires k < i <= |l.heads| && InLoop(g, l, l.heads[k], n)
             && forall j :: 0 <= j < k ==> !InLoop(g, l, l.heads[j], n)
    ensures FirstLoop(g, l, i, n) == Some(l.heads[k])
  {
    NoneSoFar(g, l, k, n);
    FirstLoopHere(g, l, k, n);
    FirstLoopStays(g, l, k + 1, i, n);
  }

  lemma {:induction false} NoneSoFar(g: Graph, l: Loops, k: nat, n: nat)
    requires k <= |l.heads| && forall j :: 0 <= j < k ==> !InLoop(g, l, l.heads[j], n)
    ensures FirstLoop(g, l, k, n).None?
  {
    if k > 0 {
      NoneSoFar(g, l, k - 1, n);
    }
  }

  lemma FirstLoopHere(g: Graph, l: Loops, k: nat, n: nat)
    requires k < |l.heads| && FirstLoop(g, l, k, n).None? && InLoop(g, l, l.heads[k], n)
    ensures FirstLoop(g, l, k + 1, n) == Some(l.heads[k])
  {
  }

  lemma TouchedAt(g: Graph, entry: nat, l: Loops, i: nat, toLoop: map<nat, nat>, mid: map<nat, nat>, n: nat)
    requires Natural(g, entry, l) && i < |l.heads| && OwnersAt(g, l, i, toLoop)
    requires var h := l.heads[i]; Associated(toLoop, h, l.latches[h], mid)
    requires n in mid && InLoop(g, l, l.heads[i], n) && n !in l.latches[l.heads[i]] && Reachable(g, entry, n)
    ensures mid[n] in l.latches && InLoop(g, l, l.heads[i], mid[n])
  {
    if n !in l.latches {
      OwnerIsInside(g, entry, l, i, n);
    }
  }

  /** Filling the next loop moves on to the owners, the outer loops and the body as specified. */
  lemma NextLoop(g: Graph, entry: nat, l: Loops, i: nat, toLoop: map<nat, nat>, outer: map<nat, nat>,
                 mid: map<nat, nat>, met: set<nat>, toLoop': map<nat, nat>, outer': map<nat, nat>, items: seq<Item>)
    requires Natural(g, entry, l) && LoopsAreMet(g, l) && i < |l.heads|
    requires OwnersAt(g, l, i, toLoop) && OuterAt(g, l, i, outer)
    requires var h := l.heads[i];
             Associated(toLoop, h, l.latches[h], mid) && Met(mid, outer, h, met, toLoop', outer', items)
    requires forall n :: n in met <==> InLoop(g, l, l.heads[i], n) && n !in l.latches[l.heads[i]]
    requires forall n :: InLoop(g, l, l.heads[i], n) ==> Reachable(g, entry, n)
    ensures OwnersAt(g, l, i + 1, toLoop') && OuterAt(g, l, i + 1, outer') && BodyOk(g, l, l.heads[i], items)
  {
    NextOwners(g, entry, l, i, toLoop, mid, met, toLoop', outer, outer', items);
    forall x: nat | FirstLoop(g, l, i, x).None?
      ensures Touched(mid, met, x) <==> x in l.latches && InLoop(g, l, l.heads[i], x)
    {
      TouchedIff(g, entry, l, i, toLoop, mid, met, x);
    }
    HeadersTouched(g, entry, l, i, toLoop, mid, met);
    NextOuter(g, l, i, outer, mid, met, toLoop', outer', items);
    NextBody(g, entry, l, i, toLoop, outer, mid, met, toLoop', outer', items);
  }

  lemma HeadersTouched(g: Graph, entry: nat, l: Loops, i: nat, toLoop: map<nat, nat>, mid: map<nat, nat>, met: set<nat>)
    requires Natural(g, entry, l) && i < |l.heads| && OwnersAt(g, l, i, toLoop)
    requires var h := l.heads[i]; Associated(toLoop, h, l.latches[h], mid)
    requires forall n :: n in met <==> InLoop(g, l, l.heads[i], n) && n !in l.latches[l.heads[i]]
    requires forall n :: InLoop(g, l, l.heads[i], n) ==> Reachable(g, entry, n)
    ensures forall x: nat :: Touched(mid, met, x) ==> x in l.latches
  {
    forall x: nat | Touched(mid, met, x) ensures x in l.latches {
      var n :| n in met && n in mid && mid[n] == x;
      TouchedAt(g, entry, l, i, toLoop, mid, n);
    }
  }

  lemma NextOuter(g: Graph, l: Loops, i: nat, outer: map<nat, nat>, mid: map<nat, nat>, met: set<nat>,
                  toLoop': map<nat, nat>, outer': map<nat, nat>, items: seq<Item>)
    requires i < |l.heads| && OuterAt(g, l, i, outer) && Met(mid, outer, l.heads[i], met, toLoop', outer', items)
    requires forall x: nat :: Touched(mid, met, x) ==> x in l.latches
    requires forall x: nat :: FirstLoop(g, l, i, x).None? ==>
        (Touched(mid, met, x) <==> x in l.latches && InLoop(g, l, l.heads[i], x))
    ensures OuterAt(g, l, i + 1, outer')
  {
  }

  lemma NextBody(g: Graph, entry: nat, l: Loops, i: nat, toLoop: map<nat, nat>, outer: map<nat, nat>,
                 mid: map<nat, nat>, met: set<nat>, toLoop': map<nat, nat>, outer': map<nat, nat>, items: seq<Item>)
    requires Natural(g, entry, l) && i < |l.heads| && OwnersAt(g, l, i, toLoop) && OuterAt(g, l, i, outer)
    requires var h := l.heads[i];
             && h in l.latches && Associated(toLoop, h, l.latches[h], mid)
             && Met(mid, outer, h, met, toLoop', outer', items)
    requires forall n :: n in met <==> InLoop(g, l, l.heads[i], n) && n !in l.latches[l.heads[i]]
    requires forall x: nat :: Touched(mid, met, x) ==> x in l.latches
    requires forall x: nat :: FirstLoop(g, l, i, x).None? ==>
        (Touched(mid, met, x) <==> x in l.latches && InLoop(g, l, l.heads[i], x))
    ensures BodyOk(g, l, l.heads[i], items)
  {
    var h := l.heads[i];
    assert h in l.heads;
    forall n: nat ensures Node(n) in items <==>
        n !in l.latches && n !in l.latches[h] && FirstLoop(g, l, |l.heads|, n) == Some(h)
    {
      FirstLoopAt(g, entry, l, i, n);
    }
    forall x: nat ensures Inner(x) in items <==> x in l.latches && FirstLoop(g, l, |l.heads|, x) == Some(h) {
      FirstLoopAt(g, entry, l, i, x);
    }
  }

  lemma NextOwners(g: Graph, entry: nat, l: Loops, i: nat, toLoop: map<nat, nat>, mid: map<nat, nat>, met: set<nat>,
                   toLoop': map<nat, nat>, outer: map<nat, nat>, outer': map<nat, nat>, items: seq<Item>)
    requires Natural(g, entry, l) && i < |l.heads| && OwnersAt(g, l, i, toLoop)
    requires var h := l.heads[i];
             Associated(toLoop, h, l.latches[h], mid) && Met(mid, outer, h, met, toLoop', outer', items)
    requires forall n :: n in met <==> InLoop(g, l, l.heads[i], n) && n !in l.latches[l.heads[i]]
    ensures OwnersAt(g, l, i + 1, toLoop')
  {
    var h := l.heads[i];
    assert h in l.heads;
    forall u | u in l.latches[h] ensures InLoop(g, l, h, u) {
      LatchInLoop(g, entry, l, h, u);
    }
  }

  // ----- the parts in the order in which they are met -----

  /** The new parts of the body of `h`: its own blocks as they are met, and a loop right inside when the first block
      of its own is met. */
  ghost function PartsMet(g: Graph, l: Loops, h: nat, met: seq<nat>): seq<Item> {
    if met == [] then []
    else
      var parts, n := PartsMet(g, l, h, met[..|met| - 1]), met[|met| - 1];
      match Owner(g, l, n)
      case None => parts
      case Some(x) =>
        if x == h then parts + [Node(n)]
        else if FirstLoop(g, l, |l.heads|, x) == Some(h) && Inner(x) !in parts then parts + [Inner(x)]
        else parts
  }

  lemma OwnerBefore(g: Graph, entry: nat, l: Loops, i: nat, toLoop: map<nat, nat>, mid: map<nat, nat>, n: nat)
    requires Natural(g, entry, l) && i < |l.heads| && OwnersAt(g, l, i, toLoop)
    requires var h := l.heads[i]; Associated(toLoop, h, l.latches[h], mid)
    requires InLoop(g, l, l.heads[i], n) && n !in l.latches[l.heads[i]]
    ensures n !in mid <==> Owner(g, l, n) == Some(l.heads[i])
    ensures n in mid ==> Owner(g, l, n) == Some(mid[n])
  {
    HeaderDominates(g, entry, l, l.heads[i], n);
    if n !in l.latches {
      FirstLoopAt(g, entry, l, i, n);
      if FirstLoop(g, l, i, n).Some? {
        FirstLoopStays(g, l, i, |l.heads|, n);
      }
    }
  }

  lemma OuterBefore(g: Graph, entry: nat, l: Loops, i: nat, toLoop: map<nat, nat>, outer: map<nat, nat>,
                    mid: map<nat, nat>, n: nat)
    requires Natural(g, entry, l) && i < |l.heads| && OwnersAt(g, l, i, toLoop) && OuterAt(g, l, i, outer)
    requires var h := l.heads[i]; Associated(toLoop, h, l.latches[h], mid)
    requires InLoop(g, l, l.heads[i], n) && n !in l.latches[l.heads[i]] && Reachable(g, entry, n) && n in mid
    ensures mid[n] !in outer <==> FirstLoop(g, l, |l.heads|, mid[n]) == Some(l.heads[i])
  {
    TouchedAt(g, entry, l, i, toLoop, mid, n);
    FirstLoopAt(g, entry, l, i, mid[n]);
  }

  /** Before the loop of `h` is filled the tables know the owner of `n`, unless that is `h`, and whether its loop has an
      outer one. */
  ghost predicate KnownBefore(g: Graph, l: Loops, h: nat, mid: map<nat, nat>, outer: map<nat, nat>, n: nat) {
    && (n !in mid <==> Owner(g, l, n) == Some(h))
    && (n in mid ==> Owner(g, l, n) == Some(mid[n]))
    && (n in mid ==> (mid[n] !in outer <==> FirstLoop(g, l, |l.heads|, mid[n]) == Some(h)))
  }

  lemma {:induction false} MeetsAsKnown(g: Graph, l: Loops, h: nat, mid: map<nat, nat>, outer: map<nat, nat>,
                                        met: seq<nat>)
    requires forall n :: n in met ==> KnownBefore(g, l, h, mid, outer, n)
    requires forall a, b :: 0 <= a < |met| && 0 <= b < |met| && met[a] == met[b] ==> a == b
    ensures MeetAll(Filling(mid, outer, []), h, met).items == PartsMet(g, l, h, met)
  {
    if met != [] {
      var front, n := met[..|met| - 1], met[|met| - 1];
      assert n in met && n !in front && forall x :: x in front ==> x in met;
      MeetsAsKnown(g, l, h, mid, outer, front);
      MeetAllIs(mid, outer, h, front);
      assert KnownBefore(g, l, h, mid, outer, n);
      var f := MeetAll(Filling(mid, outer, []), h, front);
      assert n in f.toLoop <==> n in mid;
    }
  }

  /** Filling the loop lists exactly these parts in this order. */
  lemma FilledInOrder(g: Graph, entry: nat, l: Loops, i: nat, toLoop: map<nat, nat>, outer: map<nat, nat>,
                      mid: map<nat, nat>, met: seq<nat>)
    requires Natural(g, entry, l) && i < |l.heads| && OwnersAt(g, l, i, toLoop) && OuterAt(g, l, i, outer)
    requires var h := l.heads[i]; Associated(toLoop, h, l.latches[h], mid)
    requires forall n :: n in met ==>
        InLoop(g, l, l.heads[i], n) && n !in l.latches[l.heads[i]] && Reachable(g, entry, n)
    requires forall a, b :: 0 <= a < |met| && 0 <= b < |met| && met[a] == met[b] ==> a == b
    ensures MeetAll(Filling(mid, outer, []), l.heads[i], met).items == PartsMet(g, l, l.heads[i], met)
  {
    forall n | n in met ensures KnownBefore(g, l, l.heads[i], mid, outer, n) {
      OwnerBefore(g, entry, l, i, toLoop, mid, n);
      if n in mid {
        OuterBefore(g, entry, l, i, toLoop, outer, mid, n);
      }
    }
    MeetsAsKnown(g, l, l.heads[i], mid, outer, met);
  }
}
