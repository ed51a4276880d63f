/** Which checks the elimination removes: those with an equal check above them in the dominator tree. */
module Redundancy {
  import opened Graphs
  import opened DomSpec
  import opened Dominators
  import opened TreeSoundness
  import opened Occurrences
  import opened Code
  import opened Runs
  import opened CheckRuns

  /** `a` stands above `c`: earlier in the same block, or in a block above. */
  ghost predicate TreeAbove(p: Program, home: seq<nat>, preds: seq<seq<nat>>, times: map<nat, nat>, a: nat, c: nat)
    requires TreeFits(preds, times)
  {
    && In(p.blocks, home, a) && In(p.blocks, home, c)
    && if home[a] == home[c] then Precedes(p.blocks[home[a]], a, c) else BlockAbove(preds, times, home[a], home[c])
  }

  lemma TreeAboveTransitive(p: Program, home: seq<nat>, preds: seq<seq<nat>>, times: map<nat, nat>,
                            a: nat, b: nat, c: nat)
    requires Placed(p.blocks, home) && TreeFits(preds, times)
    requires TreeAbove(p, home, preds, times, a, b) && TreeAbove(p, home, preds, times, b, c)
    ensures TreeAbove(p, home, preds, times, a, c)
  {
    var x, y, z := home[a], home[b], home[c];
    if x == y && y == z {
      PrecedesTransitive(p.blocks[x], a, b, c);
    } else if x != y && y != z {
      AncestorTransitive(preds, times[x], times[y], times[z]);
      AncestorIsEarlier(preds, times[x], times[y]);
      AncestorIsEarlier(preds, times[y], times[z]);
    }
  }

  lemma TreeAboveIsStrict(p: Program, home: seq<nat>, preds: seq<seq<nat>>, times: map<nat, nat>, a: nat, b: nat)
    requires Placed(p.blocks, home) && TreeFits(preds, times) && TreeAbove(p, home, preds, times, a, b)
    ensures a != b && !TreeAbove(p, home, preds, times, b, a)
  {
    if home[a] == home[b] {
      PrecedesMembers(p.blocks[home[a]], a, b);
    }
    if TreeAbove(p, home, preds, times, b, a) {
      TreeAboveTransitive(p, home, preds, times, a, b, a);
      PrecedesMembers(p.blocks[home[a]], a, a);
    }
  }

  /** The place of an instruction in its block. */
  ghost function Place(list: seq<nat>, c: nat): nat {
    if list == [] then 0 else if list[|list| - 1] == c then |list| - 1 else Place(list[..|list| - 1], c)
  }

  lemma {:induction false} MemberPlace(list: seq<nat>, a: nat)
    requires a in list
    ensures Place(list, a) < |list|
  {
    if list[|list| - 1] != a {
      MemberPlace(list[..|list| - 1], a);
    }
  }

  lemma {:induction false} PrecedesPlace(list: seq<nat>, a: nat, b: nat)
    requires Precedes(list, a, b) && NoDuplicates(list)
    ensures Place(list, a) < Place(list, b)
  {
    var front := list[..|list| - 1];
    PrecedesFront(list, a, b);
    if list[|list| - 1] == b {
      MemberPlace(front, a);
    } else {
      PrecedesPlace(front, a, b);
    }
  }

  ghost function BlockTime(times: map<nat, nat>, b: nat): nat {
    if b in times then times[b] else 0
  }

  ghost predicate EqualAbove(p: Program, home: seq<nat>, preds: seq<seq<nat>>, times: map<nat, nat>, a: nat, c: nat)
    requires TreeFits(preds, times)
  {
    TreeAbove(p, home, preds, times, a, c) && a < |p.nodes| && c < |p.nodes| && SameCheck(p.nodes[a], p.nodes[c])
  }

  /** Some equal check stands above `c`. */
  ghost predicate Redundant(p: Program, home: seq<nat>, preds: seq<seq<nat>>, times: map<nat, nat>, c: nat)
    requires TreeFits(preds, times)
  {
    exists a: nat :: EqualAbove(p, home, preds, times, a, c)
  }

  /** Above every redundant check stands an equal one that is not redundant. */
  lemma {:induction false} TopmostAbove(p: Program, home: seq<nat>, preds: seq<seq<nat>>, times: map<nat, nat>, c: nat)
    returns (a: nat)
    requires Placed(p.blocks, home) && TreeFits(preds, times) && Redundant(p, home, preds, times, c)
    ensures EqualAbove(p, home, preds, times, a, c) && !Redundant(p, home, preds, times, a)
    decreases BlockTime(times, home[c]), Place(p.blocks[home[c]], c)
  {
    a :| EqualAbove(p, home, preds, times, a, c);
    if Redundant(p, home, preds, times, a) {
      if home[a] == home[c] {
        PrecedesPlace(p.blocks[home[a]], a, c);
      } else {
        AncestorIsEarlier(preds, times[home[a]], times[home[c]]);
      }
      var b := TopmostAbove(p, home, preds, times, a);
      TreeAboveTransitive(p, home, preds, times, b, a, c);
      a := b;
    }
  }

  /** The checks in the given blocks that have an equal one above them. */
  ghost predicate IsErased(p: Program, home: seq<nat>, preds: seq<seq<nat>>, times: map<nat, nat>, rpo: seq<nat>,
                           c: nat)
    requires TreeFits(preds, times)
  {
    In(p.blocks, home, c) && c < |p.nodes| && IsCheck(p.nodes[c]) && home[c] in rpo
      && Redundant(p, home, preds, times, c)
  }

  /** Every erased check is strictly below an equal one that stays. */
  lemma ErasedIsCovered(p: Program, home: seq<nat>, preds: seq<seq<nat>>, times: map<nat, nat>, rpo: seq<nat>,
                        erased: set<nat>, c: nat) returns (a: nat)
    requires Placed(p.blocks, home) && TreeFits(preds, times)
    requires forall x :: x in erased <==> IsErased(p, home, preds, times, rpo, x)
    requires c in erased
    ensures EqualAbove(p, home, preds, times, a, c) && a !in erased && a != c
  {
    a := TopmostAbove(p, home, preds, times, c);
    TreeAboveIsStrict(p, home, preds, times, a, c);
  }

  /** Of two equal checks in the blocks, one above the other, at most the upper one stays. */
  lemma SurvivorsAreUnrelated(p: Program, home: seq<nat>, preds: seq<seq<nat>>, times: map<nat, nat>, rpo: seq<nat>,
                              erased: set<nat>, a: nat, c: nat)
    requires TreeFits(preds, times)
    requires forall x :: x in erased <==> IsErased(p, home, preds, times, rpo, x)
    requires In(p.blocks, home, a) && In(p.blocks, home, c) && a < |p.nodes| && c < |p.nodes|
    requires IsCheck(p.nodes[c]) && home[c] in rpo && a !in erased && c !in erased && SameCheck(p.nodes[a], p.nodes[c])
    ensures !TreeAbove(p, home, preds, times, a, c)
  {
    if TreeAbove(p, home, preds, times, a, c) {
      assert EqualAbove(p, home, preds, times, a, c);
    }
  }

  /** Above every check that counts as redundant some equal check stands that truly dominates it. */
  ghost predicate TrulyAbove(g: Graph, entry: nat, p: Program, home: seq<nat>, preds: seq<seq<nat>>,
                             times: map<nat, nat>)
    requires TreeFits(preds, times)
  {
    forall c: nat :: c < |p.nodes| && Redundant(p, home, preds, times, c) ==> HasAbove(g, entry, p, home, c)
  }

  /** It does where the tree reports dominators only. */
  lemma SoundIsTrulyAbove(g: Graph, entry: nat, predLists: Graph, order: seq<nat>, preds: seq<seq<nat>>,
                          times: map<nat, nat>, p: Program, home: seq<nat>)
    requires Built(g, entry, predLists, order, preds) && IsTimes(g, entry, order, times) && TreeFits(preds, times)
    requires SoundFor(g, entry, order, preds)
    ensures TrulyAbove(g, entry, p, home, preds, times)
  {
    forall c: nat | c < |p.nodes| && Redundant(p, home, preds, times, c) ensures HasAbove(g, entry, p, home, c) {
      var a: nat :| EqualAbove(p, home, preds, times, a, c);
      assert Above(g, entry, p.blocks, home, a, c);
    }
  }

  /** Where the tree is right about the checks it calls redundant, erasing them changes no run. */
  lemma EliminationPreservesRuns<W(!new)>(m: Machine<W>, g: Graph, entry: nat, preds: seq<seq<nat>>,
                                   times: map<nat, nat>, p: Program, home: seq<nat>, rpo: seq<nat>, erased: set<nat>,
                                   s: State<W>, n: nat)
    requires ValidGraph(g) && entry < |g| && Placed(p.blocks, home) && Ssa(g, entry, p, home)
    requires TreeFits(preds, times) && TrulyAbove(g, entry, p, home, preds, times)
    requires forall x :: x in erased <==> IsErased(p, home, preds, times, rpo, x)
    ensures RunFor(m, g, entry, Erase(p, erased), s, n) == RunFor(m, g, entry, p, s, n)
  {
    forall c | c in erased ensures c < |p.nodes| && IsCheck(p.nodes[c]) && HasAbove(g, entry, p, home, c) {
      assert Redundant(p, home, preds, times, c);
    }
    ErasingPreservesRuns(m, g, entry, p, home, erased, s, n);
  }

  /** The pass on a graph whose tree is sound, in particular where the comparisons of the builder are harmless. */
  lemma SoundEliminationPreservesRuns<W(!new)>(m: Machine<W>, g: Graph, entry: nat, predLists: Graph, order: seq<nat>,
                                               preds: seq<seq<nat>>, times: map<nat, nat>, p: Program, home: seq<nat>,
                                               rpo: seq<nat>, erased: set<nat>, s: State<W>, n: nat)
    requires Placed(p.blocks, home) && Ssa(g, entry, p, home) && Built(g, entry, predLists, order, preds)
    requires IsTimes(g, entry, order, times) && TreeFits(preds, times)
    requires SoundFor(g, entry, order, preds) || AllHarmless(preds, |preds|)
    requires forall x :: x in erased <==> IsErased(p, home, preds, times, rpo, x)
    ensures RunFor(m, g, entry, Erase(p, erased), s, n) == RunFor(m, g, entry, p, s, n)
  {
    if AllHarmless(preds, |preds|) {
      HarmlessIsSound(g, entry, predLists, order, preds);
    }
    SoundIsTrulyAbove(g, entry, predLists, order, preds, times, p, home);
    EliminationPreservesRuns(m, g, entry, preds, times, p, home, rpo, erased, s, n);
  }
}
