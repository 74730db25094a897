/** Dependency order of a list of (parent, child) pairs. */
module TopSort {
  import opened Sequences
  import opened Graphs
  import opened DependencyTables

  /** Either the whole order, or the three values that the raised CycleError carries. */
  datatype Outcome =
    | Sorted(answer: seq<Item>)
    | CycleError(answer: seq<Item>, numParents: map<Item, int>, children: map<Item, seq<Item>>)

  /** Every edge points forward in the list. */
  ghost predicate EdgesForward(e: set<(Item, Item)>, order: seq<Item>) {
    forall i, j :: 0 <= i < |order| && 0 <= j < |order| && (order[i], order[j]) in e ==> i < j
  }

  /** The items that no cycle leads to. */
  ghost function CycleFree(pairs: seq<Pair>): set<Item> {
    set x | x in Items(pairs) && !CycleReaches(ToSet(pairs), x)
  }

  /** What is true of the answer list and the tables when exactly the parents in `done` have been retired. */
  ghost predicate Progress(items: set<Item>, pairs: seq<Pair>, answer: seq<Item>, done: set<Item>,
                           numParents: map<Item, int>, children: map<Item, seq<Item>>)
  {
    && NoDup(answer) && ToSet(answer) <= items
    && Describes(numParents, children, items, pairs, done)
    && AnswerIsReady(items, pairs, answer, done)
    && ParentsFirst(ToSet(pairs), answer)
  }

  ghost predicate AnswerIsReady(items: set<Item>, pairs: seq<Pair>, answer: seq<Item>, done: set<Item>) {
    forall x :: x in answer <==> x in items && InDegree(pairs, done, x) == 0
  }

  lemma InDegreeShrinks(pairs: seq<Pair>, done: set<Item>, p: Item, x: Item)
    requires InDegree(pairs, done, x) == 0
    ensures InDegree(pairs, done + {p}, x) == 0
  {
    if p in done {
      assert done + {p} == done;
    } else {
      InDegreeRetire(pairs, done, p, x);
    }
  }

  /** The child of a parent that is only now being retired cannot itself be in the answer yet. */
  lemma ChildIsPending(items: set<Item>, pairs: seq<Pair>, answer: seq<Item>, done: set<Item>, p: Item,
                       np: map<Item, int>, ch: map<Item, seq<Item>>, x: Item)
    requires Progress(items, pairs, answer, done, np, ch)
    requires p in answer && p !in done && x in Lookup(ch, p)
    ensures x in items && x !in answer && (p, x) in pairs
  {
    assert p in ToSet(answer);
    CountPositive(Lookup(ch, p), x);
    PairCountPositive(pairs, p, x);
    InDegreeZero(pairs, done, x);
  }

  /** A child whose last parent goes may follow everything that is already in the answer. */
  lemma AppendReady(pairs: seq<Pair>, answer: seq<Item>, done: set<Item>, x: Item)
    requires NoDup(answer) && ParentsFirst(ToSet(pairs), answer) && x !in answer
    requires done <= ToSet(answer) && InDegree(pairs, done, x) == 0
    ensures NoDup(answer + [x]) && ParentsFirst(ToSet(pairs), answer + [x])
  {
    InDegreeZero(pairs, done, x);
    assert forall a :: a in ToSet(answer) ==> a in answer;
    ParentsFirstAppend(ToSet(pairs), answer, x);
  }

  /** The inner loop: one child after the other loses a parent, and joins the answer when that was its last. */
  method ReleaseChildren(ghost pairs: seq<Pair>, ghost done: set<Item>, offspring: seq<Item>,
                         numParents0: map<Item, int>, answer0: seq<Item>)
    returns (numParents: map<Item, int>, answer: seq<Item>)
    requires NoDup(answer0) && ParentsFirst(ToSet(pairs), answer0) && done <= ToSet(answer0)
    requires forall x :: x in numParents0 ==> numParents0[x] == InDegree(pairs, done, x) + Count(offspring, x)
    requires forall x :: x in numParents0 ==> (x in answer0 <==> numParents0[x] == 0)
    requires forall x :: x in offspring ==> x in numParents0
    ensures answer0 <= answer && NoDup(answer) && ParentsFirst(ToSet(pairs), answer)
    ensures forall x :: x in answer ==> x in answer0 || x in numParents0
    ensures numParents.Keys == numParents0.Keys
    ensures forall x :: x in numParents ==> numParents[x] == InDegree(pairs, done, x)
    ensures forall x :: x in numParents ==> (x in answer <==> numParents[x] == 0)
  {
    numParents, answer := numParents0, answer0;
    assert offspring[0..] == offspring;
    for j := 0 to |offspring|
      invariant answer0 <= answer && NoDup(answer) && ParentsFirst(ToSet(pairs), answer)
      invariant forall x :: x in answer ==> x in answer0 || x in numParents0
      invariant numParents.Keys == numParents0.Keys
      invariant forall x :: x in numParents ==> numParents[x] == InDegree(pairs, done, x) + Count(offspring[j..], x)
      invariant forall x :: x in numParents ==> (x in answer <==> numParents[x] == 0)
    {
      var child := offspring[j];
      CountTail(offspring, j);
      numParents := numParents[child := numParents[child] - 1];
      if numParents[child] == 0 {
        AppendReady(pairs, answer, done, child);
        answer := answer + [child];
      }
    }
  }

  /** The body of the main loop: retire one parent and append the children that it was the last to hold back. */
  method RetireParent(ghost items: set<Item>, ghost pairs: seq<Pair>, answer0: seq<Item>, ghost done: set<Item>,
                      parent: Item, numParents0: map<Item, int>, children0: map<Item, seq<Item>>)
    returns (answer: seq<Item>, numParents: map<Item, int>, children: map<Item, seq<Item>>)
    requires Progress(items, pairs, answer0, done, numParents0, children0)
    requires parent in answer0 && parent !in done && done <= ToSet(answer0)
    ensures Progress(items, pairs, answer, done + {parent}, numParents, children)
    ensures answer0 <= answer
    ensures children == children0 - {parent}
  {
    numParents := numParents0 - {parent};
    var offspring := Lookup(children0, parent);
    BeforeRelease(items, pairs, answer0, done, parent, numParents0, children0);
    numParents, answer := ReleaseChildren(pairs, done + {parent}, offspring, numParents, answer0);
    children := children0;
    if parent in children {
      children := children - {parent};
    }
    RetiredAll(items, pairs, answer0, done, parent, answer, numParents);
    assert ToSet(answer) <= items;
  }

  lemma BeforeRelease(items: set<Item>, pairs: seq<Pair>, answer: seq<Item>, done: set<Item>, p: Item,
                      np: map<Item, int>, ch: map<Item, seq<Item>>)
    requires Progress(items, pairs, answer, done, np, ch)
    requires p in answer && p !in done && done <= ToSet(answer)
    ensures done + {p} <= ToSet(answer)
    ensures forall x :: x in Lookup(ch, p) ==> x in np - {p}
    ensures forall x :: x in np - {p} ==> np[x] == InDegree(pairs, done + {p}, x) + Count(Lookup(ch, p), x)
    ensures forall x :: x in np - {p} ==> (x in answer <==> np[x] == 0)
  {
    assert p in ToSet(answer);
    forall x | x in Lookup(ch, p) ensures x in np - {p} {
      ChildIsPending(items, pairs, answer, done, p, np, ch, x);
      assert x in done ==> x in ToSet(answer);
    }
    forall x | x in np - {p}
      ensures np[x] == InDegree(pairs, done + {p}, x) + Count(Lookup(ch, p), x)
    {
      InDegreeRetire(pairs, done, p, x);
    }
  }

  lemma RetiredAll(items: set<Item>, pairs: seq<Pair>, answer0: seq<Item>, done: set<Item>, p: Item,
                   answer: seq<Item>, np: map<Item, int>)
    requires AnswerIsReady(items, pairs, answer0, done) && p in answer0 && done <= ToSet(answer0) && answer0 <= answer
    requires ToSet(answer) <= items && np.Keys == items - (done + {p})
    requires forall x :: x in np ==> np[x] == InDegree(pairs, done + {p}, x)
    requires forall x :: x in np ==> (x in answer <==> np[x] == 0)
    ensures AnswerIsReady(items, pairs, answer, done + {p})
  {
    forall x
      ensures x in answer <==> x in items && InDegree(pairs, done + {p}, x) == 0
    {
      if x in done + {p} {
        assert x in ToSet(answer0) && x in answer0;
        InDegreeShrinks(pairs, done, p, x);
      } else {
        assert x in answer ==> x in ToSet(answer);
      }
    }
  }

  /** Once the list is exhausted, what is left in the table feeds on itself. */
  lemma LeftoversAreReached(items: set<Item>, pairs: seq<Pair>, done: set<Item>, np: map<Item, int>,
                            ch: map<Item, seq<Item>>)
    requires Describes(np, ch, items, pairs, done)
    requires forall x :: x in np ==> np[x] != 0
    ensures forall x :: x in np ==> CycleReaches(ToSet(pairs), x)
  {
    var e := ToSet(pairs);
    forall x | x in np.Keys
      ensures HasParentIn(e, np.Keys, x)
    {
      InDegreeZero(pairs, done, x);
      var a :| (a, x) in pairs && a !in done;
    }
    assert BackwardClosed(e, np.Keys);
    forall x | x in np ensures CycleReaches(e, x) {
      BackwardClosedIsReached(e, np.Keys, x);
    }
  }

  /** So the answer is exactly the items that no cycle reaches. */
  lemma AnswerIsCycleFree(pairs: seq<Pair>, answer: seq<Item>, np: map<Item, int>, ch: map<Item, seq<Item>>)
    requires Progress(Items(pairs), pairs, answer, ToSet(answer), np, ch)
    ensures ToSet(answer) == CycleFree(pairs)
    ensures np.Keys == {} <==> !Cyclic(ToSet(pairs))
  {
    var e := ToSet(pairs);
    assert forall x :: x in np ==> x !in ToSet(answer) && np[x] == InDegree(pairs, ToSet(answer), x);
    LeftoversAreReached(Items(pairs), pairs, ToSet(answer), np, ch);
    forall x | x in ToSet(answer) ensures !CycleReaches(e, x) {
      OrderedIsNotReached(e, answer, x);
    }
    forall y | CycleReaches(e, y) ensures y in np.Keys {
      ReachedIsItem(pairs, y);
    }
    CyclicMeansReached(e);
  }

  lemma ForwardFromParentsFirst(e: set<(Item, Item)>, order: seq<Item>)
    requires NoDup(order) && ParentsFirst(e, order)
    ensures EdgesForward(e, order)
  {
  }

  lemma ReachedIsItem(pairs: seq<Pair>, y: Item)
    requires CycleReaches(ToSet(pairs), y)
    ensures y in Items(pairs)
  {
    var e := ToSet(pairs);
    var p :| IsPath(e, p) && p[|p| - 1] == y && OnCycle(e, p[0]);
    var q := p;
    if |p| == 1 {
      q :| IsPath(e, q) && |q| >= 2 && q[0] == y && q[|q| - 1] == y;
    }
    assert (q[|q| - 2], q[|q| - 1]) in e;
    ItemsHoldPairs(pairs);
  }

  method TopSort(pairs: seq<Pair>) returns (r: Outcome)
    ensures r.Sorted? <==> !Cyclic(ToSet(pairs))
    ensures NoDup(r.answer) && EdgesForward(ToSet(pairs), r.answer)
    ensures ToSet(r.answer) == CycleFree(pairs)
    ensures r.Sorted? ==> ToSet(r.answer) == Items(pairs)
    ensures r.CycleError? ==> Describes(r.numParents, r.children, Items(pairs), pairs, ToSet(r.answer))
  {
    var numParents, children := Build(pairs);
    var answer := Parentless(numParents);
    var k := 0;
    ghost var items := Items(pairs);
    StartIsProgress(pairs, answer, numParents, children);
    assert ToSet(answer[..0]) == {};
    while k < |answer|
      invariant k <= |answer| && Progress(items, pairs, answer, ToSet(answer[..k]), numParents, children)
      decreases |items| - k
    {
      hide Progress, ToSet, NoDup;
      ProgressFits(items, pairs, answer, ToSet(answer[..k]), numParents, children);
      ghost var before := answer;
      ghost var done := ToSet(answer[..k]);
      NextIsFresh(answer, k);
      answer, numParents, children := RetireParent(items, pairs, answer, done, answer[k], numParents, children);
      PrefixStays(before, answer, k + 1);
      k := k + 1;
    }
    assert answer[..|answer|] == answer;
    AnswerIsCycleFree(pairs, answer, numParents, children);
    ForwardFromParentsFirst(ToSet(pairs), answer);
    if numParents.Keys != {} {
      return CycleError(answer, numParents, children);
    }
    return Sorted(answer);
  }

  lemma ProgressFits(items: set<Item>, pairs: seq<Pair>, answer: seq<Item>, done: set<Item>, np: map<Item, int>,
                     ch: map<Item, seq<Item>>)
    requires Progress(items, pairs, answer, done, np, ch)
    ensures NoDup(answer) && |answer| <= |items|
  {
    hide Describes, AnswerIsReady, ParentsFirst;
    NoDupFits(answer, items);
  }

  lemma PrefixStays(s: seq<Item>, t: seq<Item>, k: nat)
    requires s <= t && k <= |s|
    ensures t[..k] == s[..k]
  {
  }

  lemma NextIsFresh(s: seq<Item>, k: nat)
    requires NoDup(s) && k < |s|
    ensures s[k] !in ToSet(s[..k]) && ToSet(s[..k]) <= ToSet(s)
    ensures ToSet(s[..k + 1]) == ToSet(s[..k]) + {s[k]}
  {
  }

  lemma StartIsProgress(pairs: seq<Pair>, answer: seq<Item>, np: map<Item, int>, ch: map<Item, seq<Item>>)
    requires Describes(np, ch, Items(pairs), pairs, {}) && NoDup(answer)
    requires forall x :: x in answer <==> x in np && np[x] == 0
    ensures Progress(Items(pairs), pairs, answer, {}, np, ch)
  {
    forall i | 0 <= i < |answer|
      ensures forall a :: (a, answer[i]) !in ToSet(pairs)
    {
      InDegreeZero(pairs, {}, answer[i]);
    }
    assert np.Keys == Items(pairs);
  }
}
