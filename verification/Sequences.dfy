/** Facts about finite sequences and sets that several components share. */
module Sequences {

  ghost predicate NoDup<T>(s: seq<T>) {
    forall i, j :: 0 <= i < j < |s| ==> s[i] != s[j]
  }

  function ToSet<T>(s: seq<T>): set<T> {
    set x | x in s
  }

  lemma {:induction false} NoDupCardinality<T>(s: seq<T>)
    requires NoDup(s)
    ensures |ToSet(s)| == |s|
  {
    if s != [] {
      var init := s[..|s| - 1];
      NoDupCardinality(init);
      assert s == init + [s[|s| - 1]];
      assert s[|s| - 1] !in init;
      assert ToSet(s) == ToSet(init) + {s[|s| - 1]};
    }
  }

  /** A sequence without repetition that stays inside a finite set is no longer than the set is big. */
  lemma NoDupFits<T>(s: seq<T>, bound: set<T>)
    requires NoDup(s) && ToSet(s) <= bound
    ensures |s| <= |bound|
  {
    NoDupCardinality(s);
    SubsetCardinality(ToSet(s), bound);
  }

  lemma SubsetCardinality<T>(a: set<T>, b: set<T>)
    requires a <= b
    ensures |a| <= |b|
  {
    assert b == a + (b - a);
  }

  /** The first place of an element; the length if it does not occur. */
  function IndexOf<T(==)>(s: seq<T>, x: T): (k: nat)
    ensures k <= |s| && x !in s[..k] && (k < |s| ==> s[k] == x)
    ensures x in s ==> k < |s|
  {
    if s == [] || s[0] == x then 0
    else
      var k := IndexOf(s[1..], x);
      assert s[..k + 1] == [s[0]] + s[1..][..k];
      k + 1
  }

  lemma {:induction false} IndexIs<T>(s: seq<T>, x: T, k: nat)
    requires k < |s| && s[k] == x && forall j :: 0 <= j < k ==> s[j] != x
    ensures IndexOf(s, x) == k
  {
    if k > 0 {
      IndexIs(s[1..], x, k - 1);
    }
  }
}
