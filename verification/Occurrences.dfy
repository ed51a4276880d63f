/** Instructions in blocks, and which of them are known to have run last along a path. */
module Occurrences {
  import opened Graphs

  /** `a` stands before the last `b` of the list. */
  predicate Precedes(list: seq<nat>, a: nat, b: nat) {
    list != [] && if list[|list| - 1] == b then a in list[..|list| - 1] else Precedes(list[..|list| - 1], a, b)
  }

  predicate NoDuplicates(list: seq<nat>) {
    list != [] ==> list[|list| - 1] !in list[..|list| - 1] && NoDuplicates(list[..|list| - 1])
  }

  /** Every instruction stands at most once in at most one block, its home. */
  ghost predicate Placed(blocks: seq<seq<nat>>, home: seq<nat>) {
    && (forall b, id: nat :: 0 <= b < |blocks| && id in blocks[b] ==> AtHome(home, b, id))
    && (forall b :: 0 <= b < |blocks| ==> NoDuplicates(blocks[b]))
  }

  predicate AtHome(home: seq<nat>, b: nat, id: nat) { id < |home| && home[id] == b }

  ghost predicate In(blocks: seq<seq<nat>>, home: seq<nat>, id: nat) {
    id < |home| && home[id] < |blocks| && id in blocks[home[id]]
  }

  /** True dominance between instructions: earlier in the same block, or in another block that dominates. */
  ghost predicate Above(g: Graph, entry: nat, blocks: seq<seq<nat>>, home: seq<nat>, a: nat, b: nat) {
    && In(blocks, home, a) && In(blocks, home, b)
    && if home[a] == home[b] then Precedes(blocks[home[a]], a, b) else Dominates(g, entry, home[a], home[b])
  }

  function Block(blocks: seq<seq<nat>>, b: nat): seq<nat> {
    if b < |blocks| then blocks[b] else []
  }

  /** The instructions of the blocks of a trail. */
  function Flat(blocks: seq<seq<nat>>, trail: seq<nat>): seq<nat> {
    if trail == [] then [] else Flat(blocks, trail[..|trail| - 1]) + Block(blocks, trail[|trail| - 1])
  }

  /** In the run of `ids`, `a` has run and since then nothing of `kills` has. */
  predicate Fresh(ids: seq<nat>, a: nat, kills: set<nat>) {
    ids != [] && (ids[|ids| - 1] == a || (ids[|ids| - 1] !in kills && Fresh(ids[..|ids| - 1], a, kills)))
  }

  lemma MemberIsIn(blocks: seq<seq<nat>>, home: seq<nat>, b: nat, i: nat)
    requires Placed(blocks, home) && b < |blocks| && i < |blocks[b]|
    ensures In(blocks, home, blocks[b][i]) && home[blocks[b][i]] == b
  {
    assert blocks[b][i] in blocks[b] && AtHome(home, b, blocks[b][i]);
  }

  // ----- lists -----

  lemma {:induction false} PrecedesMembers(list: seq<nat>, a: nat, b: nat)
    requires Precedes(list, a, b)
    ensures a in list && b in list
    ensures NoDuplicates(list) ==> a != b
  {
    if list[|list| - 1] != b {
      PrecedesMembers(list[..|list| - 1], a, b);
    }
  }

  lemma {:induction false} PrecedesTransitive(list: seq<nat>, a: nat, b: nat, c: nat)
    requires NoDuplicates(list) && Precedes(list, a, b) && Precedes(list, b, c)
    ensures Precedes(list, a, c)
  {
    PrecedesMembers(list, a, b);
    PrecedesMembers(list, b, c);
    var front := list[..|list| - 1];
    if list[|list| - 1] == c {
      PrecedesFront(list, a, b);
    } else {
      if list[|list| - 1] == b {
        PrecedesMembers(front, b, c);
      }
      PrecedesTransitive(front, a, b, c);
    }
  }

  lemma PrecedesFront(list: seq<nat>, a: nat, b: nat)
    requires Precedes(list, a, b) && NoDuplicates(list)
    ensures a in list[..|list| - 1]
  {
    if list[|list| - 1] != b {
      PrecedesMembers(list[..|list| - 1], a, b);
    }
  }

  /** In terms of places in the list. */
  lemma {:induction false} PrecedesAt(list: seq<nat>, a: nat, i: nat)
    requires NoDuplicates(list) && i < |list|
    ensures Precedes(list, a, list[i]) <==> a in list[..i]
  {
    var front := list[..|list| - 1];
    if i < |list| - 1 {
      assert list[i] == front[i];
      PrecedesAt(front, a, i);
      assert front[..i] == list[..i];
    }
  }

  lemma SamePlace(list: seq<nat>, i: nat, j: nat)
    requires NoDuplicates(list) && i < |list| && j < |list| && list[i] == list[j]
    ensures i == j
  {
    if i < j {
      PrecedesAt(list, list[i], j);
      PrecedesMembers(list, list[j], list[j]);
    } else if j < i {
      PrecedesAt(list, list[j], i);
      PrecedesMembers(list, list[i], list[i]);
    }
  }

  lemma {:induction false} SamePrefix(list: seq<nat>, i: nat)
    requires NoDuplicates(list) && i < |list|
    ensures list[i] !in list[..i]
  {
    if i < |list| - 1 {
      assert list[..|list| - 1][..i] == list[..i];
      SamePrefix(list[..|list| - 1], i);
    }
  }

  lemma {:induction false} DistinctPrefix(list: seq<nat>, n: nat)
    requires n <= |list|
    requires forall i, k :: 0 <= i < |list| && 0 <= k < |list| && list[i] == list[k] ==> i == k
    ensures NoDuplicates(list[..n])
  {
    if n > 0 {
      DistinctPrefix(list, n - 1);
      assert list[..n][..n - 1] == list[..n - 1];
    }
  }

  lemma FlatAppend(blocks: seq<seq<nat>>, trail: seq<nat>, b: nat)
    ensures Flat(blocks, trail + [b]) == Flat(blocks, trail) + Block(blocks, b)
  {
    assert (trail + [b])[..|trail|] == trail;
  }

  lemma FlatSplit(blocks: seq<seq<nat>>, trail: seq<nat>, m: nat)
    requires m <= |trail|
    ensures Flat(blocks, trail) == Flat(blocks, trail[..m]) + Flat(blocks, trail[m..])
  {
    assert trail == trail[..m] + trail[m..];
    FlatJoin(blocks, trail[..m], trail[m..]);
  }

  lemma JoinAgain(a: seq<nat>, b: seq<nat>, c: seq<nat>)
    ensures (a + b) + c == a + (b + c)
  {
  }

  lemma {:induction false} FlatJoin(blocks: seq<seq<nat>>, a: seq<nat>, b: seq<nat>)
    ensures Flat(blocks, a + b) == Flat(blocks, a) + Flat(blocks, b)
  {
    if b == [] {
      assert a + b == a;
    } else {
      var front, whole := b[..|b| - 1], a + b;
      FlatJoin(blocks, a, front);
      assert whole[..|whole| - 1] == a + front && whole[|whole| - 1] == b[|b| - 1];
      JoinAgain(Flat(blocks, a), Flat(blocks, front), Block(blocks, b[|b| - 1]));
    }
  }

  lemma {:induction false} FlatMember(blocks: seq<seq<nat>>, trail: seq<nat>, x: nat) returns (t: nat)
    requires x in Flat(blocks, trail)
    ensures t < |trail| && x in Block(blocks, trail[t])
  {
    if x in Block(blocks, trail[|trail| - 1]) {
      t := |trail| - 1;
    } else {
      t := FlatMember(blocks, trail[..|trail| - 1], x);
    }
  }

  lemma FreshAppend(ids: seq<nat>, x: nat, a: nat, kills: set<nat>)
    ensures Fresh(ids + [x], a, kills) <==> x == a || (x !in kills && Fresh(ids, a, kills))
  {
    assert (ids + [x])[..|ids|] == ids;
  }

  // ----- along paths -----

  ghost predicate Quiet(ids: seq<nat>, kills: set<nat>) {
    forall x :: x in ids ==> x !in kills
  }

  lemma {:induction false} QuietKeeps(before: seq<nat>, ids: seq<nat>, a: nat, kills: set<nat>)
    requires Fresh(before, a, kills) && Quiet(ids, kills)
    ensures Fresh(before + ids, a, kills)
  {
    if ids == [] {
      assert before + ids == before;
    } else {
      var front, last := ids[..|ids| - 1], ids[|ids| - 1];
      assert forall x :: x in front ==> x in ids;
      QuietKeeps(before, front, a, kills);
      assert before + ids == before + front + [last];
      FreshAppend(before + front, last, a, kills);
    }
  }

  /** Everything in `kills` that stands in a block stands above `a`. */
  ghost predicate KillsAbove(g: Graph, entry: nat, blocks: seq<seq<nat>>, home: seq<nat>, a: nat, kills: set<nat>) {
    forall k :: k in kills && In(blocks, home, k) ==> Above(g, entry, blocks, home, k, a)
  }

  /** What follows an instruction in its own block. */
  lemma QuietAfter(g: Graph, entry: nat, blocks: seq<seq<nat>>, home: seq<nat>, b: nat, j: nat, n: nat, kills: set<nat>)
    requires Placed(blocks, home) && b < |blocks| && j < n <= |blocks[b]|
    requires KillsAbove(g, entry, blocks, home, blocks[b][j], kills)
    ensures Quiet(blocks[b][j + 1..n], kills)
  {
    var list := blocks[b];
    forall x | x in list[j + 1..n] ensures x !in kills {
      var t :| 0 <= t < n - (j + 1) && list[j + 1..n][t] == x;
      assert list[j + 1 + t] == x && x in blocks[b] && list[j] in blocks[b];
      if x in kills {
        assert home[x] == b;
        assert In(blocks, home, x);
        PrecedesAt(list, x, j);
        var u :| 0 <= u < j && list[u] == x;
        SamePlace(list, u, j + 1 + t);
      }
    }
  }

  /** Blocks passed after the last visit to a block that dominates the end. */
  lemma QuietBlock(g: Graph, entry: nat, blocks: seq<seq<nat>>, home: seq<nat>, trail: seq<nat>, m: nat, t: nat,
                   a: nat, kills: set<nat>)
    requires Placed(blocks, home) && In(blocks, home, a) && KillsAbove(g, entry, blocks, home, a, kills)
    requires IsPath(g, trail) && trail[0] == entry && Dominates(g, entry, home[a], trail[|trail| - 1])
    requires m < t < |trail| && trail[m] == home[a] && forall i :: m < i < |trail| ==> trail[i] != home[a]
    ensures Quiet(Block(blocks, trail[t]), kills)
  {
    forall x | x in Block(blocks, trail[t]) ensures x !in kills {
      assert In(blocks, home, x) && home[x] == trail[t];
      if x in kills {
        NoReturn(g, entry, trail, home[a], m, t);
      }
    }
  }

  lemma FreshInBlock(g: Graph, entry: nat, blocks: seq<seq<nat>>, home: seq<nat>, before: seq<nat>, b: nat, j: nat,
                     n: nat, kills: set<nat>)
    requires Placed(blocks, home) && b < |blocks| && j < n <= |blocks[b]|
    requires KillsAbove(g, entry, blocks, home, blocks[b][j], kills)
    ensures Fresh(before + blocks[b][..n], blocks[b][j], kills)
  {
    var list := blocks[b];
    assert before + list[..j + 1] == (before + list[..j]) + [list[j]];
    FreshAppend(before + list[..j], list[j], list[j], kills);
    QuietAfter(g, entry, blocks, home, b, j, n, kills);
    QuietKeeps(before + list[..j + 1], list[j + 1..n], list[j], kills);
    assert before + list[..n] == (before + list[..j + 1]) + list[j + 1..n];
  }

  /** Along any path from the entry, an instruction that stands above has run, and nothing above it has run
      since. */
  lemma FreshAt(g: Graph, entry: nat, blocks: seq<seq<nat>>, home: seq<nat>, trail: seq<nat>, i: nat, a: nat,
                kills: set<nat>)
    requires Placed(blocks, home) && IsPath(g, trail) && trail[0] == entry
    requires trail[|trail| - 1] < |blocks| && i < |blocks[trail[|trail| - 1]]|
    requires Above(g, entry, blocks, home, a, blocks[trail[|trail| - 1]][i])
    requires KillsAbove(g, entry, blocks, home, a, kills)
    ensures Fresh(Flat(blocks, trail[..|trail| - 1]) + blocks[trail[|trail| - 1]][..i], a, kills)
  {
    var b := trail[|trail| - 1];
    var list, before := blocks[b], Flat(blocks, trail[..|trail| - 1]);
    assert list[i] in list;
    if home[a] == b {
      PrecedesAt(list, a, i);
      var j :| 0 <= j < i && list[j] == a;
      FreshInBlock(g, entry, blocks, home, before, b, j, i, kills);
    } else {
      assert EntryPath(g, entry, trail, b);
      var m := LastOccurrence(trail, home[a]);
      FreshAfterBlock(g, entry, blocks, home, trail, m, a, kills);
      QuietBlock(g, entry, blocks, home, trail, m, |trail| - 1, a, kills);
      assert forall x :: x in list[..i] ==> x in list;
      QuietKeeps(before, list[..i], a, kills);
    }
  }

  lemma FreshAfterBlock(g: Graph, entry: nat, blocks: seq<seq<nat>>, home: seq<nat>, trail: seq<nat>, m: nat, a: nat,
                        kills: set<nat>)
    requires Placed(blocks, home) && IsPath(g, trail) && trail[0] == entry
    requires In(blocks, home, a) && KillsAbove(g, entry, blocks, home, a, kills)
    requires Dominates(g, entry, home[a], trail[|trail| - 1])
    requires m < |trail| - 1 && trail[m] == home[a] && forall i :: m < i < |trail| ==> trail[i] != home[a]
    ensures Fresh(Flat(blocks, trail[..|trail| - 1]), a, kills)
  {
    var front := trail[..|trail| - 1];
    FreshAtVisit(g, entry, blocks, home, front, m, a, kills);
    QuietRest(g, entry, blocks, home, trail, m, a, kills);
    QuietKeeps(Flat(blocks, front[..m + 1]), Flat(blocks, front[m + 1..]), a, kills);
    FlatSplit(blocks, front, m + 1);
  }

  lemma FreshAtVisit(g: Graph, entry: nat, blocks: seq<seq<nat>>, home: seq<nat>, front: seq<nat>, m: nat, a: nat,
                     kills: set<nat>)
    requires Placed(blocks, home) && In(blocks, home, a) && KillsAbove(g, entry, blocks, home, a, kills)
    requires m < |front| && front[m] == home[a]
    ensures Fresh(Flat(blocks, front[..m + 1]), a, kills)
  {
    var b := home[a];
    var j :| 0 <= j < |blocks[b]| && blocks[b][j] == a;
    FreshInBlock(g, entry, blocks, home, Flat(blocks, front[..m]), b, j, |blocks[b]|, kills);
    assert blocks[b][..|blocks[b]|] == blocks[b];
    FlatAppend(blocks, front[..m], b);
    assert front[..m] + [b] == front[..m + 1];
  }

  lemma QuietRest(g: Graph, entry: nat, blocks: seq<seq<nat>>, home: seq<nat>, trail: seq<nat>, m: nat, a: nat,
                  kills: set<nat>)
    requires Placed(blocks, home) && IsPath(g, trail) && trail[0] == entry
    requires In(blocks, home, a) && KillsAbove(g, entry, blocks, home, a, kills)
    requires Dominates(g, entry, home[a], trail[|trail| - 1])
    requires m < |trail| - 1 && trail[m] == home[a] && forall i :: m < i < |trail| ==> trail[i] != home[a]
    ensures Quiet(Flat(blocks, trail[..|trail| - 1][m + 1..]), kills)
  {
    var rest := trail[..|trail| - 1][m + 1..];
    forall x | x in Flat(blocks, rest) ensures x !in kills {
      var t := FlatMember(blocks, rest, x);
      QuietBlock(g, entry, blocks, home, trail, m, m + 1 + t, a, kills);
    }
  }

  // ----- erasing -----

  /** The list without the instructions of `erased`. */
  function Keep(list: seq<nat>, erased: set<nat>): seq<nat> {
    if list == [] then []
    else if list[|list| - 1] in erased then Keep(list[..|list| - 1], erased)
    else Keep(list[..|list| - 1], erased) + [list[|list| - 1]]
  }

  function KeepBlocks(blocks: seq<seq<nat>>, erased: set<nat>): (r: seq<seq<nat>>)
    ensures |r| == |blocks| && forall b :: 0 <= b < |r| ==> r[b] == Keep(blocks[b], erased)
  {
    seq(|blocks|, b requires 0 <= b < |blocks| => Keep(blocks[b], erased))
  }

  /** The list with `x` before `z`. */
  function InsertBefore(list: seq<nat>, z: nat, x: nat): seq<nat> {
    if list == [] then []
    else if list[|list| - 1] == z then list[..|list| - 1] + [x, z]
    else InsertBefore(list[..|list| - 1], z, x) + [list[|list| - 1]]
  }

  lemma {:induction false} KeepMembers(list: seq<nat>, erased: set<nat>, x: nat)
    ensures x in Keep(list, erased) <==> x in list && x !in erased
  {
    if list != [] {
      KeepMembers(list[..|list| - 1], erased, x);
      assert list == list[..|list| - 1] + [list[|list| - 1]];
    }
  }

  lemma KeepAppend(list: seq<nat>, x: nat, erased: set<nat>)
    ensures Keep(list + [x], erased) == if x in erased then Keep(list, erased) else Keep(list, erased) + [x]
  {
    assert (list + [x])[..|list|] == list;
  }

  lemma {:induction false} KeepTwice(list: seq<nat>, erased: set<nat>, x: nat)
    ensures Keep(Keep(list, erased), {x}) == Keep(list, erased + {x})
  {
    if list != [] {
      KeepTwice(list[..|list| - 1], erased, x);
      KeepAppend(Keep(list[..|list| - 1], erased), list[|list| - 1], {x});
    }
  }

  lemma PrecedesAppend(list: seq<nat>, x: nat, a: nat, b: nat)
    ensures Precedes(list + [x], a, b) == if x == b then a in list else Precedes(list, a, b)
  {
    assert (list + [x])[..|list|] == list;
  }

  /** Erasing others does not change which of two instructions comes first. */
  lemma {:induction false} KeepsOrder(list: seq<nat>, erased: set<nat>, a: nat, b: nat)
    requires a !in erased && b !in erased
    ensures Precedes(Keep(list, erased), a, b) == Precedes(list, a, b)
  {
    if list != [] {
      KeepsOrder(list[..|list| - 1], erased, a, b);
      KeepMembers(list[..|list| - 1], erased, a);
      PrecedesAppend(Keep(list[..|list| - 1], erased), list[|list| - 1], a, b);
    }
  }

  lemma {:induction false} KeepsDistinct(list: seq<nat>, erased: set<nat>)
    requires NoDuplicates(list)
    ensures NoDuplicates(Keep(list, erased))
  {
    if list != [] {
      var front := list[..|list| - 1];
      KeepsDistinct(front, erased);
      KeepMembers(front, erased, list[|list| - 1]);
      assert (Keep(front, erased) + [list[|list| - 1]])[..|Keep(front, erased)|] == Keep(front, erased);
    }
  }

  lemma {:induction false} KeepsAbsent(list: seq<nat>, erased: set<nat>, x: nat)
    requires x !in list
    ensures Keep(list, erased + {x}) == Keep(list, erased)
  {
    if list != [] {
      KeepsAbsent(list[..|list| - 1], erased, x);
    }
  }
}
