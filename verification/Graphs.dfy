/** Finite directed graphs: paths, cycles, and what a cycle can reach. */
module Graphs {
  import opened Sequences

  /** Graph items: anything that can be a dictionary key. */
  type Item(==, !new)

  /** A non-empty walk along edges of `e`. */
  ghost predicate IsPath(e: set<(Item, Item)>, p: seq<Item>) {
    |p| > 0 && forall i :: 0 <= i < |p| - 1 ==> (p[i], p[i + 1]) in e
  }

  ghost predicate OnCycle(e: set<(Item, Item)>, x: Item) {
    exists p :: IsPath(e, p) && |p| >= 2 && p[0] == x && p[|p| - 1] == x
  }

  ghost predicate Cyclic(e: set<(Item, Item)>) {
    exists x :: OnCycle(e, x)
  }

  /** Some cycle has a path (possibly of no edge at all) to `y`. */
  ghost predicate CycleReaches(e: set<(Item, Item)>, y: Item) {
    exists p :: IsPath(e, p) && p[|p| - 1] == y && OnCycle(e, p[0])
  }

  /** A path of exactly `n` edges ends at `x`. */
  ghost predicate Chain(e: set<(Item, Item)>, n: nat, x: Item) {
    exists p :: IsPath(e, p) && |p| == n + 1 && p[n] == x
  }

  lemma ChainIntro(e: set<(Item, Item)>, p: seq<Item>)
    requires IsPath(e, p)
    ensures Chain(e, |p| - 1, p[|p| - 1])
  {
  }

  /** A chain of n + 1 edges to `x` is a chain of n edges to one of its parents. */
  lemma ChainStep(e: set<(Item, Item)>, n: nat, x: Item)
    ensures Chain(e, n + 1, x) <==> exists a :: (a, x) in e && Chain(e, n, a)
  {
    if Chain(e, n + 1, x) {
      var p :| IsPath(e, p) && |p| == n + 2 && p[n + 1] == x;
      ChainIntro(e, p[..n + 1]);
      assert (p[n], x) in e && Chain(e, n, p[n]);
    }
    if exists a :: (a, x) in e && Chain(e, n, a) {
      var a :| (a, x) in e && Chain(e, n, a);
      var p :| IsPath(e, p) && |p| == n + 1 && p[n] == a;
      ChainIntro(e, p + [x]);
    }
  }

  /** Longer chains imply shorter ones. */
  lemma ChainShorter(e: set<(Item, Item)>, n: nat, m: nat, x: Item)
    requires m <= n && Chain(e, n, x)
    ensures Chain(e, m, x)
  {
    var p :| IsPath(e, p) && |p| == n + 1 && p[n] == x;
    var q := p[n - m..];
    assert forall i :: 0 <= i < |q| ==> q[i] == p[n - m + i];
    ChainIntro(e, q);
  }

  ghost predicate HasParentIn(e: set<(Item, Item)>, r: set<Item>, x: Item) {
    exists a :: a in r && (a, x) in e
  }

  ghost predicate BackwardClosed(e: set<(Item, Item)>, r: set<Item>) {
    forall x {:trigger HasParentIn(e, r, x)} :: x in r ==> HasParentIn(e, r, x)
  }

  /** If everything in `r` has a parent in `r`, walking backwards from any of it must run into a cycle. */
  lemma BackwardClosedIsReached(e: set<(Item, Item)>, r: set<Item>, y: Item)
    requires BackwardClosed(e, r)
    requires y in r
    ensures CycleReaches(e, y)
  {
    WalkBack(e, r, [y]);
  }

  lemma {:induction false} WalkBack(e: set<(Item, Item)>, r: set<Item>, p: seq<Item>)
    requires BackwardClosed(e, r)
    requires IsPath(e, p) && NoDup(p) && ToSet(p) <= r
    ensures CycleReaches(e, p[|p| - 1])
    decreases |r| - |p|
  {
    NoDupFits(p, r);
    assert p[0] in ToSet(p);
    assert HasParentIn(e, r, p[0]);
    var a :| a in r && (a, p[0]) in e;
    var q := [a] + p;
    assert IsPath(e, q) by {
      assert forall i :: 0 <= i < |q| - 1 ==> q[i + 1] == p[i];
      assert forall i :: 0 < i < |q| - 1 ==> q[i] == p[i - 1];
    }
    if a in p {
      var i :| 0 <= i < |p| && p[i] == a;
      var c := q[..i + 2];
      assert IsPath(e, c) && c[0] == a && c[|c| - 1] == a;
      assert OnCycle(e, a);
      assert q[|q| - 1] == p[|p| - 1];
    } else {
      assert ToSet(q) == ToSet(p) + {a};
      NoDupFits(q, r);
      WalkBack(e, r, q);
    }
  }

  /** Every parent of a listed item is listed before it. */
  ghost predicate ParentsFirst(e: set<(Item, Item)>, order: seq<Item>) {
    forall i, a :: 0 <= i < |order| && (a, order[i]) in e ==> a in order[..i]
  }

  lemma ParentsFirstAppend(e: set<(Item, Item)>, order: seq<Item>, x: Item)
    requires ParentsFirst(e, order) && forall a :: (a, x) in e ==> a in order
    ensures ParentsFirst(e, order + [x])
  {
    var longer := order + [x];
    forall i, a | 0 <= i < |longer| && (a, longer[i]) in e
      ensures a in longer[..i]
    {
      if i < |order| {
        assert longer[..i] == order[..i];
      } else {
        assert longer[..i] == order;
      }
    }
  }

  /** A path that ends inside such an order climbs it by at least one place per edge. */
  lemma {:induction false} PathClimbs(e: set<(Item, Item)>, order: seq<Item>, p: seq<Item>, i: nat) returns (k: nat)
    requires NoDup(order) && ParentsFirst(e, order) && IsPath(e, p)
    requires i < |order| && p[|p| - 1] == order[i]
    ensures k + |p| - 1 <= i && p[0] == order[k]
    decreases |p|
  {
    if |p| == 1 {
      k := i;
    } else {
      var q := p[..|p| - 1];
      assert (p[|p| - 2], p[|p| - 1]) in e;
      var j :| 0 <= j < i && order[j] == q[|q| - 1];
      k := PathClimbs(e, order, q, j);
    }
  }

  /** Nothing in such an order is on, or downstream of, a cycle. */
  lemma OrderedIsNotReached(e: set<(Item, Item)>, order: seq<Item>, y: Item)
    requires NoDup(order) && ParentsFirst(e, order) && y in order
    ensures !CycleReaches(e, y)
  {
    if CycleReaches(e, y) {
      var p :| IsPath(e, p) && p[|p| - 1] == y && OnCycle(e, p[0]);
      var i :| 0 <= i < |order| && order[i] == y;
      var k := PathClimbs(e, order, p, i);
      var c :| IsPath(e, c) && |c| >= 2 && c[0] == p[0] && c[|c| - 1] == p[0];
      var m := PathClimbs(e, order, c, k);
    }
  }

  /** A cycle exists exactly when some item is reached from one. */
  lemma CyclicMeansReached(e: set<(Item, Item)>)
    ensures Cyclic(e) <==> exists y :: CycleReaches(e, y)
  {
    if Cyclic(e) {
      var x :| OnCycle(e, x);
      assert IsPath(e, [x]);
      assert CycleReaches(e, x);
    }
  }

  /** What a cycle reaches has a parent that the cycle reaches, ... */
  lemma ReachedHasReachedParent(e: set<(Item, Item)>, x: Item) returns (a: Item)
    requires CycleReaches(e, x)
    ensures (a, x) in e && CycleReaches(e, a)
  {
    var p :| IsPath(e, p) && p[|p| - 1] == x && OnCycle(e, p[0]);
    var q := p;
    if |p| == 1 {
      q :| IsPath(e, q) && |q| >= 2 && q[0] == x && q[|q| - 1] == x;
    }
    a := q[|q| - 2];
    var r := q[..|q| - 1];
    assert IsPath(e, r) && r[|r| - 1] == a && OnCycle(e, r[0]);
  }

  /** ... so chains of every length end there. */
  lemma {:induction false} ReachedHasEveryChain(e: set<(Item, Item)>, n: nat, x: Item)
    requires CycleReaches(e, x)
    ensures Chain(e, n, x)
  {
    if n == 0 {
      ChainIntro(e, [x]);
    } else {
      var a := ReachedHasReachedParent(e, x);
      ReachedHasEveryChain(e, n - 1, a);
      ChainStep(e, n - 1, x);
    }
  }
}
