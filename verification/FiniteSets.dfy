/** Cardinality facts about finite sets that the counting arguments need. */
module FiniteSets {

  lemma {:induction false} SubsetSize<T>(a: set<T>, b: set<T>)
    requires a <= b
    ensures |a| <= |b|
    ensures |a| == |b| ==> a == b
  {
    if a != {} {
      var x :| x in a;
      SubsetSize(a - {x}, b - {x});
    }
  }

  function Below(n: nat): (s: set<nat>)
    ensures forall i :: i in s <==> 0 <= i < n
    ensures |s| == n
  {
    if n == 0 then {} else Below(n - 1) + {n - 1}
  }

  /** The elements of a sequence, as a set. */
  function Elements<T>(s: seq<T>): set<T> {
    set x | x in s
  }

  /** Pigeonhole: a map that is injective on `a` and stays below `n` bounds the size of `a`. */
  lemma InjectiveBelow<T>(a: set<T>, f: map<T, nat>, n: nat)
    requires a <= f.Keys
    requires forall x :: x in a ==> f[x] < n
    requires forall x, y :: x in a && y in a && f[x] == f[y] ==> x == y
    ensures |a| <= n
  {
    var image := set x | x in a :: f[x];
    ImageSize(a, f, image);
    SubsetSize(image, Below(n));
  }

  lemma {:induction false} ImageSize<T>(a: set<T>, f: map<T, nat>, image: set<nat>)
    requires a <= f.Keys
    requires image == set x | x in a :: f[x]
    requires forall x, y :: x in a && y in a && f[x] == f[y] ==> x == y
    ensures |image| == |a|
  {
    if a != {} {
      var x :| x in a;
      var a', image' := a - {x}, image - {f[x]};
      assert image' == set y | y in a' :: f[y];
      ImageSize(a', f, image');
    }
  }

  lemma {:induction false} DistinctSize<T>(s: seq<T>)
    requires forall i, j :: 0 <= i < |s| && 0 <= j < |s| && s[i] == s[j] ==> i == j
    ensures |Elements(s)| == |s|
  {
    if s != [] {
      var front, last := s[..|s| - 1], s[|s| - 1];
      DistinctSize(front);
      assert Elements(s) == Elements(front) + {last};
      assert last !in Elements(front);
    }
  }

  /** No element stands twice. */
  ghost predicate NoRepeat<T>(s: seq<T>) {
    s != [] ==> s[|s| - 1] !in s[..|s| - 1] && NoRepeat(s[..|s| - 1])
  }

  lemma NoRepeatPrefix<T>(s: seq<T>, i: nat)
    requires NoRepeat(s) && i < |s|
    ensures s[i] !in s[..i]
  {
    assert s == s[..i + 1] + s[i + 1..];
    NoRepeatJoin(s[..i + 1], s[i + 1..]);
    assert s[..i + 1][..i] == s[..i];
  }

  lemma {:induction false} NoRepeatJoin<T>(a: seq<T>, b: seq<T>)
    ensures NoRepeat(a + b) <==> NoRepeat(a) && NoRepeat(b) && forall x :: x in a ==> x !in b
  {
    if b == [] {
      assert a + b == a;
    } else {
      var front, last := b[..|b| - 1], b[|b| - 1];
      NoRepeatJoin(a, front);
      assert (a + b)[..|a + b| - 1] == a + front;
      assert b == front + [last];
    }
  }

  /** As many elements as places: exactly if none stands twice. */
  lemma {:induction false} NoRepeatSize<T>(s: seq<T>)
    ensures |Elements(s)| <= |s|
    ensures |Elements(s)| == |s| <==> NoRepeat(s)
  {
    if s != [] {
      var front, last := s[..|s| - 1], s[|s| - 1];
      NoRepeatSize(front);
      assert Elements(s) == Elements(front) + {last};
      if last in front {
        assert Elements(s) == Elements(front);
      } else {
        assert last !in Elements(front);
      }
    }
  }
}
