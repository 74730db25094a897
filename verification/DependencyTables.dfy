/**
 * The two dictionaries both dependency sorts start from: how many parents each item
 * still has, and the list of its children. Repeated pairs and self-loops are counted.
 */
module DependencyTables {
  import opened Sequences
  import opened Graphs

  type Pair = (Item, Item)

  /** Every item that some pair mentions. */
  function Items(pairs: seq<Pair>): set<Item> {
    if pairs == [] then {} else {pairs[0].0, pairs[0].1} + Items(pairs[1..])
  }

  ghost predicate PairsWithin(pairs: seq<Pair>, items: set<Item>) {
    forall a, b :: (a, b) in pairs ==> a in items && b in items
  }

  /** How many pairs give `x` a parent outside `done`. */
  ghost function InDegree(pairs: seq<Pair>, done: set<Item>, x: Item): nat {
    if pairs == [] then 0
    else InDegree(pairs[1..], done, x) + if pairs[0].1 == x && pairs[0].0 !in done then 1 else 0
  }

  /** How often the pair (p, x) is listed. */
  ghost function PairCount(pairs: seq<Pair>, p: Item, x: Item): nat {
    if pairs == [] then 0 else PairCount(pairs[1..], p, x) + if pairs[0] == (p, x) then 1 else 0
  }

  ghost function Count(s: seq<Item>, x: Item): nat {
    if s == [] then 0 else Count(s[1..], x) + if s[0] == x then 1 else 0
  }

  function Lookup(children: map<Item, seq<Item>>, p: Item): seq<Item> {
    if p in children then children[p] else []
  }

  /** The tables describe the pairs between the items of `items` that are not yet `done`. */
  ghost predicate Describes(numParents: map<Item, int>, children: map<Item, seq<Item>>,
                            items: set<Item>, pairs: seq<Pair>, done: set<Item>)
  {
    && PairsWithin(pairs, items)
    && numParents.Keys == items - done
    && children.Keys <= items - done
    && (forall x :: x in numParents ==> numParents[x] == InDegree(pairs, done, x))
    && (forall p, x :: p in items - done ==> Count(Lookup(children, p), x) == PairCount(pairs, p, x))
  }

  lemma {:induction false} InDegreeZero(pairs: seq<Pair>, done: set<Item>, x: Item)
    ensures InDegree(pairs, done, x) == 0 <==> forall a :: (a, x) in pairs ==> a in done
  {
    if pairs != [] {
      InDegreeZero(pairs[1..], done, x);
      assert forall a :: (a, x) in pairs <==> (a, x) in pairs[1..] || (a, x) == pairs[0];
    }
  }

  /** Retiring one parent lowers each in-degree by the number of pairs from that parent. */
  lemma {:induction false} InDegreeRetire(pairs: seq<Pair>, done: set<Item>, p: Item, x: Item)
    requires p !in done
    ensures InDegree(pairs, done, x) == InDegree(pairs, done + {p}, x) + PairCount(pairs, p, x)
  {
    if pairs != [] {
      InDegreeRetire(pairs[1..], done, p, x);
    }
  }

  lemma {:induction false} PairCountPositive(pairs: seq<Pair>, p: Item, x: Item)
    ensures PairCount(pairs, p, x) > 0 <==> (p, x) in pairs
  {
    if pairs != [] {
      PairCountPositive(pairs[1..], p, x);
    }
  }

  lemma {:induction false} CountPositive(s: seq<Item>, x: Item)
    ensures Count(s, x) > 0 <==> x in s
  {
    if s != [] {
      CountPositive(s[1..], x);
    }
  }

  lemma {:induction false} CountAppend(s: seq<Item>, y: Item, x: Item)
    ensures Count(s + [y], x) == Count(s, x) + if y == x then 1 else 0
  {
    if s != [] {
      CountAppend(s[1..], y, x);
      assert (s + [y])[1..] == s[1..] + [y];
    }
  }

  lemma {:induction false} PairsAppend(pairs: seq<Pair>, last: Pair)
    ensures Items(pairs + [last]) == Items(pairs) + {last.0, last.1}
    ensures forall done, x :: InDegree(pairs + [last], done, x)
                              == InDegree(pairs, done, x) + if last.1 == x && last.0 !in done then 1 else 0
    ensures forall p, x :: PairCount(pairs + [last], p, x) == PairCount(pairs, p, x) + if last == (p, x) then 1 else 0
  {
    if pairs != [] {
      PairsAppend(pairs[1..], last);
      assert (pairs + [last])[1..] == pairs[1..] + [last];
    }
  }

  lemma CountTail(s: seq<Item>, j: nat)
    requires j < |s|
    ensures forall x :: Count(s[j..], x) == Count(s[j + 1..], x) + if s[j] == x then 1 else 0
  {
    assert s[j..][1..] == s[j + 1..];
  }

  lemma AddChild(children: map<Item, seq<Item>>, pairs: seq<Pair>, parent: Item, child: Item)
    requires forall p, x :: Count(Lookup(children, p), x) == PairCount(pairs, p, x)
    ensures forall p, x :: Count(Lookup(children[parent := Lookup(children, parent) + [child]], p), x)
                           == PairCount(pairs + [(parent, child)], p, x)
  {
    PairsAppend(pairs, (parent, child));
    forall p, x
      ensures Count(Lookup(children[parent := Lookup(children, parent) + [child]], p), x)
              == PairCount(pairs + [(parent, child)], p, x)
    {
      CountAppend(Lookup(children, p), child, x);
    }
  }

  lemma {:induction false} ItemsHoldPairs(pairs: seq<Pair>)
    ensures PairsWithin(pairs, Items(pairs))
  {
    if pairs != [] {
      ItemsHoldPairs(pairs[1..]);
      assert forall p :: p in pairs ==> p == pairs[0] || p in pairs[1..];
    }
  }

  /** The tables after the pairs read so far. */
  ghost predicate Tables(numParents: map<Item, int>, children: map<Item, seq<Item>>, pairs: seq<Pair>) {
    && numParents.Keys == Items(pairs)
    && children.Keys <= numParents.Keys
    && (forall x :: InDegree(pairs, {}, x) == if x in numParents then numParents[x] else 0)
    && (forall p, x :: Count(Lookup(children, p), x) == PairCount(pairs, p, x))
    && (forall p :: p in children ==> children[p] != [])
  }

  /** One pair: both items become keys, the child gains a parent and the parent gains a child. */
  method RecordPair(ghost pairs: seq<Pair>, parent: Item, child: Item,
                    numParents0: map<Item, int>, children0: map<Item, seq<Item>>)
    returns (numParents: map<Item, int>, children: map<Item, seq<Item>>)
    requires Tables(numParents0, children0, pairs)
    ensures Tables(numParents, children, pairs + [(parent, child)])
  {
    hide Items, InDegree, PairCount, Count;
    numParents, children := numParents0, children0;
    PairsAppend(pairs, (parent, child));
    AddChild(children, pairs, parent, child);
    if parent !in numParents {
      numParents := numParents[parent := 0];
    }
    if child !in numParents {
      numParents := numParents[child := 0];
    }
    numParents := numParents[child := numParents[child] + 1];
    if parent !in children {
      children := children[parent := []];
    }
    children := children[parent := children[parent] + [child]];
  }

  /** Builds both tables from a list of (parent, child) pairs. */
  method Build(pairs: seq<Pair>) returns (numParents: map<Item, int>, children: map<Item, seq<Item>>)
    ensures Describes(numParents, children, Items(pairs), pairs, {})
    ensures forall p :: p in children ==> children[p] != []
  {
    numParents, children := map[], map[];
    for i := 0 to |pairs|
      invariant Tables(numParents, children, pairs[..i])
    {
      assert pairs[..i + 1] == pairs[..i] + [(pairs[i].0, pairs[i].1)];
      numParents, children := RecordPair(pairs[..i], pairs[i].0, pairs[i].1, numParents, children);
    }
    assert pairs[..|pairs|] == pairs;
    ItemsHoldPairs(pairs);
  }

  /** The dictionary's keys, in an order of its own choosing. */
  method Keys<V>(m: map<Item, V>) returns (keys: seq<Item>)
    ensures NoDup(keys) && ToSet(keys) == m.Keys
  {
    keys := [];
    var rest := m.Keys;
    while rest != {}
      invariant NoDup(keys) && ToSet(keys) + rest == m.Keys && ToSet(keys) !! rest
      decreases rest
    {
      var x :| x in rest;
      assert x !in ToSet(keys);
      keys, rest := keys + [x], rest - {x};
    }
  }

  /** The keys whose remaining parent count is zero. */
  method Parentless(numParents: map<Item, int>) returns (ready: seq<Item>)
    ensures NoDup(ready)
    ensures forall x :: x in ready <==> x in numParents && numParents[x] == 0
  {
    var keys := Keys(numParents);
    ready := [];
    for i := 0 to |keys|
      invariant NoDup(ready)
      invariant forall x :: x in ready <==> x in keys[..i] && numParents[x] == 0
    {
      assert keys[i] in ToSet(keys);
      assert keys[i] !in keys[..i];
      if numParents[keys[i]] == 0 {
        ready := ready + [keys[i]];
      }
    }
    assert keys[..|keys|] == keys;
    assert forall x :: x in keys <==> x in ToSet(keys);
  }
}
