/** Dependency order by depth: one list of items per level. */
module TopSortLevels {
  import opened Sequences
  import opened Graphs
  import opened DependencyTables
  import TopSort

  /** How the generator ends: exhausted, or by raising CycleError with what is left of the tables. */
  datatype Ending =
    | Exhausted
    | CycleError(numParents: map<Item, int>, children: map<Item, seq<Item>>)

  /** The longest chain of predecessors of `x` has exactly `n` edges. */
  ghost predicate LongestChain(e: set<(Item, Item)>, n: nat, x: Item) {
    Chain(e, n, x) && !Chain(e, n + 1, x)
  }

  /** Level i lists, once each, the items whose longest predecessor chain has i edges. */
  ghost predicate LevelsByDepth(items: set<Item>, e: set<(Item, Item)>, levels: seq<seq<Item>>) {
    forall i :: 0 <= i < |levels| ==>
      && levels[i] != []
      && NoDup(levels[i])
      && forall x :: x in levels[i] <==> x in items && LongestChain(e, i, x)
  }

  ghost predicate InSomeLevel(levels: seq<seq<Item>>, x: Item) {
    exists i :: 0 <= i < |levels| && x in levels[i]
  }

  /** After n levels exactly the items without a chain of n edges are gone. */
  ghost predicate GoneByDepth(items: set<Item>, e: set<(Item, Item)>, n: nat, done: set<Item>) {
    done <= items && forall x :: x in items ==> (x in done <==> !Chain(e, n, x))
  }

  /** An item can belong to one level only. */
  lemma OneLevel(e: set<(Item, Item)>, i: nat, j: nat, x: Item)
    requires LongestChain(e, i, x) && LongestChain(e, j, x)
    ensures i == j
  {
    if i < j {
      ChainShorter(e, j, i + 1, x);
    } else if j < i {
      ChainShorter(e, i, j + 1, x);
    }
  }

  /** With n levels gone, a remaining item has no remaining parent exactly when its longest chain has n edges. */
  lemma ParentlessMeansDepth(items: set<Item>, pairs: seq<Pair>, n: nat, done: set<Item>, x: Item)
    requires PairsWithin(pairs, items) && GoneByDepth(items, ToSet(pairs), n, done)
    requires x in items
    ensures InDegree(pairs, done, x) == 0 <==> !Chain(ToSet(pairs), n + 1, x)
  {
    InDegreeZero(pairs, done, x);
    ChainStep(ToSet(pairs), n, x);
  }

  method DecrementChildren(ghost pairs: seq<Pair>, ghost done: set<Item>, offspring: seq<Item>,
                           numParents0: map<Item, int>)
    returns (numParents: map<Item, int>)
    requires forall x :: x in numParents0 ==> numParents0[x] == InDegree(pairs, done, x) + Count(offspring, x)
    requires forall x :: x in offspring ==> x in numParents0
    ensures numParents.Keys == numParents0.Keys
    ensures forall x :: x in numParents ==> numParents[x] == InDegree(pairs, done, x)
  {
    numParents := numParents0;
    assert offspring[0..] == offspring;
    for j := 0 to |offspring|
      invariant numParents.Keys == numParents0.Keys
      invariant forall x :: x in numParents ==> numParents[x] == InDegree(pairs, done, x) + Count(offspring[j..], x)
    {
      CountTail(offspring, j);
      numParents := numParents[offspring[j] := numParents[offspring[j]] - 1];
    }
  }

  /** Every parent of anything in `level` is gone already. */
  ghost predicate ParentsGone(pairs: seq<Pair>, gone: set<Item>, level: set<Item>) {
    forall a, x :: (a, x) in pairs && x in level ==> a in gone
  }

  /** Retiring `p` from a level whose own parents are all gone: what happens to each remaining count. */
  lemma BeforeDecrement(items: set<Item>, pairs: seq<Pair>, gone: set<Item>, done: set<Item>, p: Item,
                        np: map<Item, int>, ch: map<Item, seq<Item>>)
    requires Describes(np, ch, items, pairs, done) && p in items && p !in done && gone <= done
    requires ParentsGone(pairs, gone, done + {p})
    ensures forall x :: x in Lookup(ch, p) ==> x in np - {p}
    ensures forall x :: x in np - {p} ==> np[x] == InDegree(pairs, done + {p}, x) + Count(Lookup(ch, p), x)
  {
    forall x | x in Lookup(ch, p) ensures x in np - {p} {
      CountPositive(Lookup(ch, p), x);
      PairCountPositive(pairs, p, x);
    }
    forall x | x in np - {p}
      ensures np[x] == InDegree(pairs, done + {p}, x) + Count(Lookup(ch, p), x)
    {
      InDegreeRetire(pairs, done, p, x);
    }
  }

  /** Removes a whole level from both tables. */
  method RetireLevel(ghost items: set<Item>, ghost pairs: seq<Pair>, ghost gone: set<Item>, level: seq<Item>,
                     numParents0: map<Item, int>, children0: map<Item, seq<Item>>)
    returns (numParents: map<Item, int>, children: map<Item, seq<Item>>)
    requires Describes(numParents0, children0, items, pairs, gone)
    requires NoDup(level) && ToSet(level) <= items - gone
    requires ParentsGone(pairs, gone, gone + ToSet(level))
    ensures Describes(numParents, children, items, pairs, gone + ToSet(level))
  {
    numParents, children := numParents0, children0;
    assert gone + ToSet(level[..0]) == gone;
    for i := 0 to |level|
      invariant Describes(numParents, children, items, pairs, gone + ToSet(level[..i]))
    {
      ghost var done := gone + ToSet(level[..i]);
      var p := level[i];
      assert p in ToSet(level);
      TopSort.NextIsFresh(level, i);
      assert gone + ToSet(level[..i + 1]) == done + {p};
      BeforeDecrement(items, pairs, gone, done, p, numParents, children);
      var offspring := Lookup(children, p);
      numParents := DecrementChildren(pairs, done + {p}, offspring, numParents - {p});
      children := children - {p};
    }
    assert level[..|level|] == level;
  }

  lemma NextLevel(items: set<Item>, pairs: seq<Pair>, n: nat, done: set<Item>,
                  np: map<Item, int>, ch: map<Item, seq<Item>>, level: seq<Item>)
    requires Describes(np, ch, items, pairs, done) && GoneByDepth(items, ToSet(pairs), n, done)
    requires forall x :: x in level <==> x in np && np[x] == 0
    ensures ToSet(level) <= items - done
    ensures forall x :: x in level <==> x in items && LongestChain(ToSet(pairs), n, x)
    ensures GoneByDepth(items, ToSet(pairs), n + 1, done + ToSet(level))
    ensures ParentsGone(pairs, done, done + ToSet(level))
  {
    var e := ToSet(pairs);
    forall x | x in items
      ensures InDegree(pairs, done, x) == 0 <==> !Chain(e, n + 1, x)
      ensures Chain(e, n + 1, x) ==> Chain(e, n, x)
    {
      ParentlessMeansDepth(items, pairs, n, done, x);
      if Chain(e, n + 1, x) {
        ChainShorter(e, n + 1, n, x);
      }
    }
    forall a, x | (a, x) in pairs && x in done + ToSet(level) ensures a in done {
      InDegreeZero(pairs, done, x);
    }
  }

  /** The generator run to its end: the levels it yields and how it stops. */
  method TopSortLevelsCore(ghost items: set<Item>, ghost pairs: seq<Pair>,
                           numParents0: map<Item, int>, children0: map<Item, seq<Item>>)
    returns (levels: seq<seq<Item>>, ending: Ending)
    requires Describes(numParents0, children0, items, pairs, {})
    ensures LevelsByDepth(items, ToSet(pairs), levels)
    ensures ending.Exhausted? <==> !Cyclic(ToSet(pairs))
    ensures ending.Exhausted? ==> forall x :: x in items ==> InSomeLevel(levels, x)
    ensures ending.CycleError? ==>
              && Describes(ending.numParents, ending.children, items, pairs, items - ending.numParents.Keys)
              && forall x :: x in ending.numParents <==> x in items && CycleReaches(ToSet(pairs), x)
  {
    hide GoneByDepth, LevelsByDepth, InSomeLevel, LongestChain, Chain, Cyclic, CycleReaches;
    var numParents, children := numParents0, children0;
    levels := [];
    ghost var e, done := ToSet(pairs), {};
    StartDepth(items, e);
    while true
      invariant LevelsByDepth(items, e, levels)
      invariant GoneByDepth(items, e, |levels|, done)
      invariant Describes(numParents, children, items, pairs, done)
      invariant forall x :: x in done ==> InSomeLevel(levels, x)
      decreases items - done
    {
      var level := Parentless(numParents);
      NextLevel(items, pairs, |levels|, done, numParents, children, level);
      if level == [] {
        break;
      }
      assert level[0] in ToSet(level);
      AppendLevel(items, e, levels, done, level);
      levels := levels + [level];
      numParents, children := RetireLevel(items, pairs, done, level, numParents, children);
      done := done + ToSet(level);
    }
    forall x | x in numParents ensures numParents[x] != 0 {
      assert numParents[x] == 0 ==> x in [];
    }
    EndOfLevels(items, pairs, |levels|, done, numParents, children);
    if numParents.Keys != {} {
      ending := CycleError(numParents, children);
    } else {
      ending := Exhausted;
    }
  }

  lemma AppendLevel(items: set<Item>, e: set<(Item, Item)>, levels: seq<seq<Item>>, done: set<Item>, level: seq<Item>)
    requires LevelsByDepth(items, e, levels) && level != [] && NoDup(level)
    requires forall x :: x in level <==> x in items && LongestChain(e, |levels|, x)
    requires forall x :: x in done ==> InSomeLevel(levels, x)
    ensures LevelsByDepth(items, e, levels + [level])
    ensures forall x :: x in done + ToSet(level) ==> InSomeLevel(levels + [level], x)
  {
    var more := levels + [level];
    forall x | x in done + ToSet(level) ensures InSomeLevel(more, x) {
      if x in done {
        var i :| 0 <= i < |levels| && x in levels[i];
        assert x in more[i];
      } else {
        assert x in more[|levels|];
      }
    }
  }

  lemma StartDepth(items: set<Item>, e: set<(Item, Item)>)
    ensures GoneByDepth(items, e, 0, {}) && LevelsByDepth(items, e, [])
  {
    forall x ensures Chain(e, 0, x) {
      ChainIntro(e, [x]);
    }
  }

  lemma EndOfLevels(items: set<Item>, pairs: seq<Pair>, n: nat, done: set<Item>,
                    np: map<Item, int>, ch: map<Item, seq<Item>>)
    requires Describes(np, ch, items, pairs, done) && GoneByDepth(items, ToSet(pairs), n, done)
    requires forall x :: x in np ==> np[x] != 0
    ensures forall x :: x in np <==> x in items && CycleReaches(ToSet(pairs), x)
    ensures np.Keys == {} <==> !Cyclic(ToSet(pairs))
    ensures items - np.Keys == done
  {
    var e := ToSet(pairs);
    TopSort.LeftoversAreReached(items, pairs, done, np, ch);
    forall x | CycleReaches(e, x) ensures x in np {
      ReachedHasEveryChain(e, n, x);
      var a := ReachedHasReachedParent(e, x);
      assert (a, x) in pairs;
    }
    CyclicMeansReached(e);
  }

  method TopSortLevels(pairs: seq<Pair>) returns (levels: seq<seq<Item>>, ending: Ending)
    ensures LevelsByDepth(Items(pairs), ToSet(pairs), levels)
    ensures ending.Exhausted? <==> !Cyclic(ToSet(pairs))
    ensures ending.Exhausted? ==> forall x :: x in Items(pairs) ==> InSomeLevel(levels, x)
    ensures ending.CycleError? ==>
              forall x :: x in ending.numParents <==> x in Items(pairs) && CycleReaches(ToSet(pairs), x)
  {
    var numParents, children := Build(pairs);
    levels, ending := TopSortLevelsCore(Items(pairs), pairs, numParents, children);
  }
}
