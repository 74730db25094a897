/** Enumeration of the configuration paths under which registered types can be reached. */
module TypeGather {
  import opened Sequences
  import TypeNames

  type TypeId = nat

  type Entry = (TypeId, string)

  /** What the search looks at in an attribute: a pointer, a container of objects, or neither. */
  datatype Attribute =
    | Pointer(name: string, pointee: TypeId)
    | Container(name: string, item: TypeId)
    | Plain(name: string)

  /** The type registry; `mark` is "%" for Doxygen output and empty for text. */
  datatype Registry = Registry(
    registered: seq<TypeId>, attributes: map<TypeId, seq<Attribute>>, childOf: set<(TypeId, TypeId)>,
    names: map<TypeId, string>, objectType: TypeId, mark: string)

  datatype Edge = Edge(text: string, target: TypeId)

  type Aggregates = seq<(TypeId, TypeId)>

  // ---------------------------------------------------------------- the edges that the search follows

  function AttributesOf(r: Registry, tid: TypeId): seq<Attribute> {
    if tid in r.attributes then r.attributes[tid] else []
  }

  function NameOf(r: Registry, tid: TypeId): string {
    if tid in r.names then r.names[tid] else ""
  }

  function TypeLabel(r: Registry, tid: TypeId): string {
    TypeNames.Marked("$" + r.mark + NameOf(r, tid), r.mark)
  }

  /** Pointers to the root Object type would lead anywhere, so they are not followed. */
  function AttributeEdge(r: Registry, a: Attribute): seq<Edge> {
    match a
    case Pointer(name, pointee) => if pointee == r.objectType then [] else [Edge(name, pointee)]
    case Container(name, item) => [Edge(name + "/[i]", item)]
    case Plain(_) => []
  }

  function AttributeEdges(r: Registry, attrs: seq<Attribute>): seq<Edge> {
    if attrs == [] then [] else AttributeEdges(r, attrs[..|attrs| - 1]) + AttributeEdge(r, attrs[|attrs| - 1])
  }

  function ChildEdge(r: Registry, child: TypeId, tid: TypeId): seq<Edge> {
    if (child, tid) in r.childOf then [Edge(TypeLabel(r, child), child)] else []
  }

  function ChildEdges(r: Registry, types: seq<TypeId>, tid: TypeId): seq<Edge> {
    if types == [] then [] else ChildEdges(r, types[..|types| - 1], tid) + ChildEdge(r, types[|types| - 1], tid)
  }

  /** An aggregation is followed from either end; one of a type with itself leads back to it. */
  function AggregateEdge(r: Registry, pair: (TypeId, TypeId), tid: TypeId): seq<Edge> {
    if pair.1 == tid then [Edge(TypeLabel(r, pair.0), pair.0)]
    else if pair.0 == tid then [Edge(TypeLabel(r, pair.1), pair.1)]
    else []
  }

  function AggregateEdges(r: Registry, aggs: Aggregates, tid: TypeId): seq<Edge> {
    if aggs == [] then [] else AggregateEdges(r, aggs[..|aggs| - 1], tid) + AggregateEdge(r, aggs[|aggs| - 1], tid)
  }

  function Edges(r: Registry, aggs: Aggregates, tid: TypeId): seq<Edge> {
    AttributeEdges(r, AttributesOf(r, tid)) + ChildEdges(r, r.registered, tid) + AggregateEdges(r, aggs, tid)
  }

  /** Every type that can be named is registered, and the mark is one of the two in use. */
  ghost predicate Closed(r: Registry, aggs: Aggregates) {
    && (r.mark == "%" || r.mark == "")
    && forall tid, i :: tid in r.registered && 0 <= i < |Edges(r, aggs, tid)| ==>
      Edges(r, aggs, tid)[i].target in r.registered
  }

  // ---------------------------------------------------------------- walks

  function PathText(path: seq<string>): string {
    if path == [] then "" else PathText(path[..|path| - 1]) + "/" + path[|path| - 1]
  }

  /** A walk is given by the index of the edge taken at each type; it may not come back to a type. */
  ghost predicate IsWalk(r: Registry, aggs: Aggregates, tid: TypeId, visited: seq<TypeId>, walk: seq<nat>)
    decreases |walk|
  {
    && tid !in visited
    && (walk != [] ==>
          && walk[0] < |Edges(r, aggs, tid)|
          && IsWalk(r, aggs, Edges(r, aggs, tid)[walk[0]].target, visited + [tid], walk[1..]))
  }

  /** The type that a walk ends at, with the text of its path. */
  ghost function WalkEntry(r: Registry, aggs: Aggregates, tid: TypeId, path: seq<string>, walk: seq<nat>): Entry
    decreases |walk|
  {
    if walk == [] || walk[0] >= |Edges(r, aggs, tid)| then (tid, PathText(path))
    else
      var e := Edges(r, aggs, tid)[walk[0]];
      WalkEntry(r, aggs, e.target, path + [e.text], walk[1..])
  }

  // ---------------------------------------------------------------- what the search records

  ghost function Remaining(r: Registry, visited: seq<TypeId>): nat {
    |ToSet(r.registered) - ToSet(visited)|
  }

  lemma VisitShrinks(r: Registry, visited: seq<TypeId>, tid: TypeId)
    requires tid in r.registered && tid !in visited
    ensures Remaining(r, visited + [tid]) < Remaining(r, visited)
  {
    assert tid in ToSet(r.registered) - ToSet(visited);
    assert ToSet(r.registered) - ToSet(visited + [tid]) == (ToSet(r.registered) - ToSet(visited)) - {tid};
  }

  /** The walks from a type, in the order in which a depth-first search finds them. */
  ghost function Walks(r: Registry, aggs: Aggregates, tid: TypeId, visited: seq<TypeId>): seq<seq<nat>>
    requires tid in r.registered && Closed(r, aggs)
    decreases Remaining(r, visited), |Edges(r, aggs, tid)| + 1
  {
    if tid in visited then [] else [[]] + WalksVia(r, aggs, tid, visited, |Edges(r, aggs, tid)|)
  }

  /** Those that leave the type by one of its first n edges. */
  ghost function WalksVia(r: Registry, aggs: Aggregates, tid: TypeId, visited: seq<TypeId>, n: nat): seq<seq<nat>>
    requires tid in r.registered && tid !in visited && Closed(r, aggs) && n <= |Edges(r, aggs, tid)|
    decreases Remaining(r, visited), n
  {
    if n == 0 then []
    else
      VisitShrinks(r, visited, tid);
      WalksVia(r, aggs, tid, visited, n - 1)
      + Prefixed(n - 1, Walks(r, aggs, Edges(r, aggs, tid)[n - 1].target, visited + [tid]))
  }

  ghost function Prefixed(i: nat, walks: seq<seq<nat>>): (p: seq<seq<nat>>)
    ensures |p| == |walks| && forall k :: 0 <= k < |p| ==> p[k] == [i] + walks[k]
  {
    seq(|walks|, k requires 0 <= k < |walks| => [i] + walks[k])
  }

  /** One entry for each walk of the list. */
  ghost function Entries(r: Registry, aggs: Aggregates, tid: TypeId, path: seq<string>,
                         walks: seq<seq<nat>>): (e: seq<Entry>)
    ensures |e| == |walks| && forall k :: 0 <= k < |e| ==> e[k] == WalkEntry(r, aggs, tid, path, walks[k])
  {
    seq(|walks|, k requires 0 <= k < |walks| => WalkEntry(r, aggs, tid, path, walks[k]))
  }

  ghost predicate ListsExactly(walks: seq<seq<nat>>, r: Registry, aggs: Aggregates, tid: TypeId, visited: seq<TypeId>) {
    NoDup(walks) && forall w :: w in walks <==> IsWalk(r, aggs, tid, visited, w)
  }

  /** The list holds each walk that never revisits a type exactly once, and nothing else. */
  lemma {:induction false} WalksAreAll(r: Registry, aggs: Aggregates, tid: TypeId, visited: seq<TypeId>)
    requires tid in r.registered && Closed(r, aggs)
    ensures ListsExactly(Walks(r, aggs, tid, visited), r, aggs, tid, visited)
    decreases Remaining(r, visited), |Edges(r, aggs, tid)| + 1
  {
    if tid !in visited {
      var n := |Edges(r, aggs, tid)|;
      hide Edges, Closed, Remaining, IsWalk, LeavesBy, NoDup, ListsExactly, ViaExactly, WalksVia;
      WalksViaAreAll(r, aggs, tid, visited, n);
      AddRoot(r, aggs, tid, visited, WalksVia(r, aggs, tid, visited, n));
    }
  }

  lemma AddRoot(r: Registry, aggs: Aggregates, tid: TypeId, visited: seq<TypeId>, via: seq<seq<nat>>)
    requires tid !in visited && ViaExactly(via, r, aggs, tid, visited, |Edges(r, aggs, tid)|)
    ensures ListsExactly([[]] + via, r, aggs, tid, visited)
  {
    hide Edges;
    var all := [[]] + via;
    assert forall k :: 1 <= k < |all| ==> all[k] == via[k - 1] && via[k - 1] in via;
    forall w ensures w in all <==> IsWalk(r, aggs, tid, visited, w) {
      assert w in all <==> w == [] || w in via;
    }
  }

  /** The same for the walks that leave by one of the first n edges. */
  ghost predicate ViaExactly(via: seq<seq<nat>>, r: Registry, aggs: Aggregates, tid: TypeId, visited: seq<TypeId>,
                             n: nat) {
    NoDup(via) && forall w :: w in via <==> LeavesBy(w, n) && IsWalk(r, aggs, tid, visited, w)
  }

  ghost predicate LeavesBy(w: seq<nat>, n: nat) {
    w != [] && w[0] < n
  }

  lemma {:induction false} WalksViaAreAll(r: Registry, aggs: Aggregates, tid: TypeId, visited: seq<TypeId>, n: nat)
    requires tid in r.registered && tid !in visited && Closed(r, aggs) && n <= |Edges(r, aggs, tid)|
    ensures ViaExactly(WalksVia(r, aggs, tid, visited, n), r, aggs, tid, visited, n)
    decreases Remaining(r, visited), n
  {
    hide NoDup, IsWalk, LeavesBy, Edges, Closed, Remaining, Prefixed, Walks, WalksVia, ViaExactly, ListsExactly;
    if n == 0 {
      NoEdges(r, aggs, tid, visited);
    } else {
      OneEdgeMore(r, aggs, tid, visited, n - 1);
      var target := Edges(r, aggs, tid)[n - 1].target;
      VisitShrinks(r, visited, tid);
      WalksViaAreAll(r, aggs, tid, visited, n - 1);
      WalksAreAll(r, aggs, target, visited + [tid]);
      OneMoreEdge(r, aggs, tid, visited, n, WalksVia(r, aggs, tid, visited, n - 1),
                  Walks(r, aggs, target, visited + [tid]));
    }
  }

  lemma NoEdges(r: Registry, aggs: Aggregates, tid: TypeId, visited: seq<TypeId>)
    requires tid in r.registered && tid !in visited && Closed(r, aggs)
    ensures ViaExactly(WalksVia(r, aggs, tid, visited, 0), r, aggs, tid, visited, 0)
  {
    hide IsWalk, Edges, Closed;
  }

  lemma OneMoreEdge(r: Registry, aggs: Aggregates, tid: TypeId, visited: seq<TypeId>, n: nat,
                    first: seq<seq<nat>>, deep: seq<seq<nat>>)
    requires tid !in visited && 1 <= n <= |Edges(r, aggs, tid)| && ViaExactly(first, r, aggs, tid, visited, n - 1)
    requires ListsExactly(deep, r, aggs, Edges(r, aggs, tid)[n - 1].target, visited + [tid])
    ensures ViaExactly(first + Prefixed(n - 1, deep), r, aggs, tid, visited, n)
  {
    hide NoDup, Edges, Prefixed;
    PrefixedMembers(n - 1, deep);
    JoinDistinct(first, Prefixed(n - 1, deep), n - 1);
    forall w ensures w in first + Prefixed(n - 1, deep) <==> LeavesBy(w, n) && IsWalk(r, aggs, tid, visited, w) {
      assert w in first + Prefixed(n - 1, deep) <==> w in first || w in Prefixed(n - 1, deep);
    }
  }

  lemma PrefixedMembers(i: nat, walks: seq<seq<nat>>)
    requires NoDup(walks)
    ensures NoDup(Prefixed(i, walks))
    ensures forall w :: w in Prefixed(i, walks) <==> w != [] && w[0] == i && w[1..] in walks
  {
    var p := Prefixed(i, walks);
    forall k | 0 <= k < |p| ensures p[k][0] == i && p[k][1..] == walks[k] {
    }
    forall w | w != [] && w[0] == i && w[1..] in walks ensures w in p {
      var k :| 0 <= k < |walks| && walks[k] == w[1..];
      assert p[k] == w;
    }
  }

  lemma JoinDistinct(a: seq<seq<nat>>, b: seq<seq<nat>>, n: nat)
    requires NoDup(a) && NoDup(b)
    requires forall w :: w in a ==> LeavesBy(w, n)
    requires forall w :: w in b ==> w != [] && w[0] == n
    ensures NoDup(a + b)
  {
    var c := a + b;
    forall i, j | 0 <= i < j < |c| ensures c[i] != c[j] {
      if i < |a| <= j {
        assert a[i] in a && b[j - |a|] in b;
      }
    }
  }

  // ---------------------------------------------------------------- the order of the output

  predicate StringLess(s: string, t: string) {
    t != [] && (s == [] || s[0] < t[0] || (s[0] == t[0] && StringLess(s[1..], t[1..])))
  }

  predicate EntryLess(a: Entry, b: Entry) {
    a.0 < b.0 || (a.0 == b.0 && StringLess(a.1, b.1))
  }

  lemma {:induction false} StringOrder(s: string, t: string, u: string)
    ensures !StringLess(s, s)
    ensures StringLess(s, t) && StringLess(t, u) ==> StringLess(s, u)
    ensures StringLess(s, t) || s == t || StringLess(t, s)
  {
    if s != [] && t != [] {
      StringOrder(s[1..], t[1..], if u == [] then u else u[1..]);
      assert s == [s[0]] + s[1..] && t == [t[0]] + t[1..];
    } else if s != [] {
      StringOrder(s[1..], t, u);
    }
  }

  /** The order on entries is a strict total order. */
  lemma EntryOrder(a: Entry, b: Entry, c: Entry)
    ensures !EntryLess(a, a)
    ensures EntryLess(a, b) && EntryLess(b, c) ==> EntryLess(a, c)
    ensures EntryLess(a, b) || a == b || EntryLess(b, a)
  {
    StringOrder(a.1, b.1, c.1);
  }

  ghost predicate Sorted(s: seq<Entry>) {
    forall i, j :: 0 <= i < j < |s| ==> !EntryLess(s[j], s[i])
  }

  ghost predicate StrictlySorted(s: seq<Entry>) {
    forall i, j :: 0 <= i < j < |s| ==> EntryLess(s[i], s[j])
  }

  /** A strictly sorted list is determined by its members. */
  lemma {:induction false} SortedIsUnique(s: seq<Entry>, t: seq<Entry>)
    requires StrictlySorted(s) && StrictlySorted(t) && ToSet(s) == ToSet(t)
    ensures s == t
  {
    assert t != [] ==> t[0] in ToSet(t);
    if s == [] {
      assert ToSet(t) == {};
    } else {
      assert s[0] in ToSet(t);
      var j :| 0 <= j < |t| && t[j] == s[0];
      assert t[0] in ToSet(s);
      var i :| 0 <= i < |s| && s[i] == t[0];
      EntryOrder(s[0], t[0], s[0]);
      assert s[0] == t[0];
      TailMembers(s);
      TailMembers(t);
      SortedIsUnique(s[1..], t[1..]);
    }
  }

  lemma TailMembers(s: seq<Entry>)
    requires s != [] && StrictlySorted(s)
    ensures ToSet(s[1..]) == ToSet(s) - {s[0]} && StrictlySorted(s[1..])
  {
    forall i | 1 <= i < |s| ensures s[i] != s[0] {
      EntryOrder(s[0], s[i], s[0]);
    }
    assert forall x :: x in s <==> x == s[0] || x in s[1..];
  }

  /** The standard sort, here by insertion. */
  method Sort(s: seq<Entry>) returns (r: seq<Entry>)
    ensures Sorted(r) && ToSet(r) == ToSet(s)
  {
    r := [];
    for n := 0 to |s|
      invariant Sorted(r) && ToSet(r) == ToSet(s[..n])
    {
      var k := 0;
      while k < |r| && !EntryLess(s[n], r[k])
        invariant k <= |r| && forall i :: 0 <= i < k ==> !EntryLess(s[n], r[i])
      {
        k := k + 1;
      }
      InsertAt(r, k, s[n]);
      assert s[..n + 1] == s[..n] + [s[n]];
      r := r[..k] + [s[n]] + r[k..];
    }
    assert s[..|s|] == s;
  }

  lemma InsertAt(r: seq<Entry>, k: nat, x: Entry)
    requires Sorted(r) && k <= |r| && (forall i :: 0 <= i < k ==> !EntryLess(x, r[i]))
    requires k < |r| ==> EntryLess(x, r[k])
    ensures Sorted(r[..k] + [x] + r[k..])
    ensures ToSet(r[..k] + [x] + r[k..]) == ToSet(r) + {x}
  {
    hide EntryLess, Sorted, ToSet;
    var before, after := r[..k], r[k..];
    assert r == before + after;
    forall i | 0 <= i < |after| ensures !EntryLess(after[i], x) {
      NotLessAfter(r, k, x, k + i);
    }
    InsertBetween(before, x, after);
  }

  lemma NotLessAfter(r: seq<Entry>, k: nat, x: Entry, i: nat)
    requires Sorted(r) && k <= i < |r| && EntryLess(x, r[k])
    ensures !EntryLess(r[i], x)
  {
    hide EntryLess;
    EntryOrder(x, r[k], r[i]);
    EntryOrder(r[i], x, r[k]);
  }

  lemma InsertBetween(before: seq<Entry>, x: Entry, after: seq<Entry>)
    requires Sorted(before + after)
    requires forall i :: 0 <= i < |before| ==> !EntryLess(x, before[i])
    requires forall i :: 0 <= i < |after| ==> !EntryLess(after[i], x)
    ensures Sorted(before + [x] + after) && ToSet(before + [x] + after) == ToSet(before + after) + {x}
  {
    hide EntryLess;
    var r, t, k := before + after, before + [x] + after, |before|;
    forall i, j | 0 <= i < j < |t| ensures !EntryLess(t[j], t[i]) {
      if i != k && j != k {
        var m, n := if i < k then i else i - 1, if j < k then j else j - 1;
        assert t[i] == r[m] && t[j] == r[n];
      } else if j == k {
        assert t[i] == before[i];
      } else {
        assert t[j] == after[j - k - 1];
      }
    }
    forall y ensures y in t <==> y in r || y == x {
    }
  }

  /** Removal of adjacent equal entries. */
  method Unique(s: seq<Entry>) returns (r: seq<Entry>)
    requires Sorted(s)
    ensures StrictlySorted(r) && ToSet(r) == ToSet(s)
  {
    r := [];
    for n := 0 to |s|
      invariant StrictlySorted(r) && ToSet(r) == ToSet(s[..n])
      invariant r == [] <==> n == 0
      invariant n > 0 ==> r[|r| - 1] == s[n - 1]
    {
      assert s[..n + 1] == s[..n] + [s[n]];
      assert ToSet(s[..n + 1]) == ToSet(s[..n]) + {s[n]};
      assert ToSet(r + [s[n]]) == ToSet(r) + {s[n]};
      if n == 0 || s[n] != r[|r| - 1] {
        if n > 0 {
          AppendLarger(r, s[n]);
        }
        r := r + [s[n]];
      } else {
        assert ToSet(r) == ToSet(r) + {s[n]};
      }
    }
    assert s[..|s|] == s;
  }

  lemma AppendLarger(r: seq<Entry>, x: Entry)
    requires StrictlySorted(r) && r != [] && x != r[|r| - 1] && !EntryLess(x, r[|r| - 1])
    ensures StrictlySorted(r + [x])
  {
    var last := r[|r| - 1];
    EntryOrder(x, last, x);
    forall i | 0 <= i < |r| ensures EntryLess(r[i], x) {
      EntryOrder(r[i], last, x);
    }
  }

  // ---------------------------------------------------------------- the search

  /** The output when the type itself and the walks by its first n edges have been recorded. */
  ghost predicate Recorded(base: seq<Entry>, r: Registry, aggs: Aggregates, tid: TypeId, path: seq<string>,
                           visited: seq<TypeId>, n: nat, output: seq<Entry>)
    requires tid in r.registered && tid !in visited && Closed(r, aggs) && n <= |Edges(r, aggs, tid)|
  {
    output == base + Entries(r, aggs, tid, path, [[]] + WalksVia(r, aggs, tid, visited, n))
  }

  lemma RecordNext(base: seq<Entry>, r: Registry, aggs: Aggregates, tid: TypeId, path: seq<string>,
                   visited: seq<TypeId>, n: nat, output: seq<Entry>)
    requires tid in r.registered && tid !in visited && Closed(r, aggs) && n < |Edges(r, aggs, tid)|
    requires Recorded(base, r, aggs, tid, path, visited, n, output)
    ensures var e := Edges(r, aggs, tid)[n];
            e.target in r.registered
            && Recorded(base, r, aggs, tid, path, visited, n + 1,
                        output + Entries(r, aggs, e.target, path + [e.text], Walks(r, aggs, e.target, visited + [tid])))
  {
    hide Edges, Closed, Remaining, IsWalk, Walks, WalksVia, Entries, Prefixed, WalkEntry;
    TargetRegistered(r, aggs, tid, n);
    var e := Edges(r, aggs, tid)[n];
    var first, deep := [[]] + WalksVia(r, aggs, tid, visited, n), Walks(r, aggs, e.target, visited + [tid]);
    OneEdgeMore(r, aggs, tid, visited, n);
    assert [[]] + WalksVia(r, aggs, tid, visited, n + 1) == first + Prefixed(n, deep);
    EntriesStep(r, aggs, tid, path, first, n, deep);
  }

  lemma OneEdgeMore(r: Registry, aggs: Aggregates, tid: TypeId, visited: seq<TypeId>, n: nat)
    requires tid in r.registered && tid !in visited && Closed(r, aggs) && n < |Edges(r, aggs, tid)|
    ensures Edges(r, aggs, tid)[n].target in r.registered
    ensures WalksVia(r, aggs, tid, visited, n + 1)
            == WalksVia(r, aggs, tid, visited, n)
               + Prefixed(n, Walks(r, aggs, Edges(r, aggs, tid)[n].target, visited + [tid]))
  {
    hide Edges, Closed, Remaining, IsWalk, Walks, Prefixed;
    TargetRegistered(r, aggs, tid, n);
  }

  lemma TargetRegistered(r: Registry, aggs: Aggregates, tid: TypeId, n: nat)
    requires tid in r.registered && Closed(r, aggs) && n < |Edges(r, aggs, tid)|
    ensures Edges(r, aggs, tid)[n].target in r.registered
  {
  }

  lemma EntriesStep(r: Registry, aggs: Aggregates, tid: TypeId, path: seq<string>, first: seq<seq<nat>>,
                    n: nat, deep: seq<seq<nat>>)
    requires n < |Edges(r, aggs, tid)|
    ensures var e := Edges(r, aggs, tid)[n];
            Entries(r, aggs, tid, path, first + Prefixed(n, deep))
            == Entries(r, aggs, tid, path, first) + Entries(r, aggs, e.target, path + [e.text], deep)
  {
    hide Edges;
    var p := Prefixed(n, deep);
    forall k | 0 <= k < |deep|
      ensures WalkEntry(r, aggs, tid, path, p[k])
              == WalkEntry(r, aggs, Edges(r, aggs, tid)[n].target, path + [Edges(r, aggs, tid)[n].text], deep[k])
    {
      assert p[k] == [n] + deep[k];
      assert p[k][0] == n && p[k][1..] == deep[k];
    }
  }

  lemma {:induction false} AttributePrefix(r: Registry, attrs: seq<Attribute>, i: nat)
    requires i <= |attrs|
    ensures AttributeEdges(r, attrs[..i]) <= AttributeEdges(r, attrs)
    decreases |attrs| - i
  {
    if i < |attrs| {
      AttributePrefix(r, attrs, i + 1);
      assert attrs[..i + 1][..i] == attrs[..i];
    } else {
      assert attrs[..i] == attrs;
    }
  }

  lemma {:induction false} ChildPrefix(r: Registry, types: seq<TypeId>, tid: TypeId, i: nat)
    requires i <= |types|
    ensures ChildEdges(r, types[..i], tid) <= ChildEdges(r, types, tid)
    decreases |types| - i
  {
    if i < |types| {
      ChildPrefix(r, types, tid, i + 1);
      assert types[..i + 1][..i] == types[..i];
    } else {
      assert types[..i] == types;
    }
  }

  lemma {:induction false} AggregatePrefix(r: Registry, aggs: Aggregates, tid: TypeId, i: nat)
    requires i <= |aggs|
    ensures AggregateEdges(r, aggs[..i], tid) <= AggregateEdges(r, aggs, tid)
    decreases |aggs| - i
  {
    if i < |aggs| {
      AggregatePrefix(r, aggs, tid, i + 1);
      assert aggs[..i + 1][..i] == aggs[..i];
    } else {
      assert aggs[..i] == aggs;
    }
  }

  lemma MarkIsPlain(r: Registry, aggs: Aggregates)
    requires Closed(r, aggs)
    ensures ':' !in r.mark
  {
  }

  /** Which of all the edges the i-th attribute, registered type or aggregation contributes. */
  lemma AttributeEdgeAt(r: Registry, aggs: Aggregates, tid: TypeId, i: nat)
    requires i < |AttributesOf(r, tid)|
    ensures var attrs := AttributesOf(r, tid);
            var n, e := |AttributeEdges(r, attrs[..i])|, AttributeEdge(r, attrs[i]);
            && |AttributeEdges(r, attrs[..i + 1])| == n + |e| <= |Edges(r, aggs, tid)|
            && (e != [] ==> Edges(r, aggs, tid)[n] == e[0])
  {
    var attrs := AttributesOf(r, tid);
    AttributePrefix(r, attrs, i + 1);
    assert attrs[..i + 1][..i] == attrs[..i];
    AtIndex([], AttributeEdges(r, attrs[..i]), AttributeEdge(r, attrs[i]), AttributeEdges(r, attrs),
            ChildEdges(r, r.registered, tid) + AggregateEdges(r, aggs, tid));
    SumOfThree(r, aggs, tid);
  }

  lemma ChildEdgeAt(r: Registry, aggs: Aggregates, tid: TypeId, j: nat)
    requires j < |r.registered|
    ensures var m := |AttributeEdges(r, AttributesOf(r, tid))|;
            var n, e := m + |ChildEdges(r, r.registered[..j], tid)|, ChildEdge(r, r.registered[j], tid);
            && m + |ChildEdges(r, r.registered[..j + 1], tid)| == n + |e| <= |Edges(r, aggs, tid)|
            && (e != [] ==> Edges(r, aggs, tid)[n] == e[0])
  {
    ChildPrefix(r, r.registered, tid, j + 1);
    assert r.registered[..j + 1][..j] == r.registered[..j];
    AtIndex(AttributeEdges(r, AttributesOf(r, tid)), ChildEdges(r, r.registered[..j], tid),
            ChildEdge(r, r.registered[j], tid), ChildEdges(r, r.registered, tid), AggregateEdges(r, aggs, tid));
  }

  lemma AggregateEdgeAt(r: Registry, aggs: Aggregates, tid: TypeId, k: nat)
    requires k < |aggs|
    ensures var m := |AttributeEdges(r, AttributesOf(r, tid))| + |ChildEdges(r, r.registered, tid)|;
            var n, e := m + |AggregateEdges(r, aggs[..k], tid)|, AggregateEdge(r, aggs[k], tid);
            && m + |AggregateEdges(r, aggs[..k + 1], tid)| == n + |e| <= |Edges(r, aggs, tid)|
            && (e != [] ==> Edges(r, aggs, tid)[n] == e[0])
  {
    AggregatePrefix(r, aggs, tid, k + 1);
    assert aggs[..k + 1][..k] == aggs[..k];
    AtIndex(AttributeEdges(r, AttributesOf(r, tid)) + ChildEdges(r, r.registered, tid),
            AggregateEdges(r, aggs[..k], tid),
            AggregateEdge(r, aggs[k], tid), AggregateEdges(r, aggs, tid), []);
  }

  lemma EdgeCounts(r: Registry, aggs: Aggregates, tid: TypeId)
    ensures |AttributeEdges(r, [])| == |ChildEdges(r, [], tid)| == |AggregateEdges(r, [], tid)| == 0
    ensures |Edges(r, aggs, tid)| == |AttributeEdges(r, AttributesOf(r, tid))| + |ChildEdges(r, r.registered, tid)|
                                     + |AggregateEdges(r, aggs, tid)|
  {
  }

  lemma SumOfThree(r: Registry, aggs: Aggregates, tid: TypeId)
    ensures var a, c := AttributeEdges(r, AttributesOf(r, tid)), ChildEdges(r, r.registered, tid);
            Edges(r, aggs, tid) == [] + a + (c + AggregateEdges(r, aggs, tid))
  {
    hide AttributesOf, AttributeEdges, ChildEdges, AggregateEdges;
    var a, c := AttributeEdges(r, AttributesOf(r, tid)), ChildEdges(r, r.registered, tid);
    var g := AggregateEdges(r, aggs, tid);
    assert [] + a == a && a + c + g == a + (c + g);
  }

  lemma AtIndex(left: seq<Edge>, before: seq<Edge>, e: seq<Edge>, middle: seq<Edge>, right: seq<Edge>)
    requires before + e <= middle
    ensures |left| + |before| + |e| <= |left + middle + right|
    ensures e != [] ==> (left + middle + right)[|left| + |before|] == e[0]
  {
    if e != [] {
      assert (before + e)[|before|] == e[0];
    }
  }

  class StaticInformation {
    const reg: Registry
    var output: seq<Entry>
    var currentPath: seq<string>
    var alreadyProcessed: seq<TypeId>
    var aggregates: Aggregates

    constructor (reg: Registry)
      ensures this.reg == reg
      ensures output == [] && currentPath == [] && alreadyProcessed == [] && aggregates == []
    {
      this.reg := reg;
      output, currentPath, alreadyProcessed, aggregates := [], [], [], [];
    }

    method GetCurrentPath() returns (text: string)
      ensures text == PathText(currentPath)
    {
      text := "";
      for i := 0 to |currentPath|
        invariant text == PathText(currentPath[..i])
      {
        assert currentPath[..i + 1][..i] == currentPath[..i];
        text := text + "/" + currentPath[i];
      }
      assert currentPath[..|currentPath|] == currentPath;
    }

    method HasAlreadyBeenProcessed(tid: TypeId) returns (found: bool)
      ensures found <==> tid in alreadyProcessed
    {
      for i := 0 to |alreadyProcessed|
        invariant tid !in alreadyProcessed[..i]
      {
        if alreadyProcessed[i] == tid {
          return true;
        }
      }
      return false;
    }

    /** Follows one edge: both stacks grow for the recursive search and are restored after it. */
    method Follow(tid: TypeId, text: string, target: TypeId)
      requires Closed(reg, aggregates) && tid in reg.registered && target in reg.registered && tid !in alreadyProcessed
      modifies this
      ensures currentPath == old(currentPath) && alreadyProcessed == old(alreadyProcessed)
              && aggregates == old(aggregates)
      ensures output == old(output)
                        + Entries(reg, aggregates, target, currentPath + [text],
                                  Walks(reg, aggregates, target, alreadyProcessed + [tid]))
      decreases Remaining(reg, alreadyProcessed), 0
    {
      VisitShrinks(reg, alreadyProcessed, tid);
      currentPath := currentPath + [text];
      alreadyProcessed := alreadyProcessed + [tid];
      DoGather(target);
      alreadyProcessed := alreadyProcessed[..|alreadyProcessed| - 1];
      currentPath := currentPath[..|currentPath| - 1];
    }

    /** Follows the n-th edge and so extends what has been recorded by one more edge. */
    method Visit(tid: TypeId, text: string, target: TypeId, ghost n: nat, ghost base: seq<Entry>)
      requires Closed(reg, aggregates) && tid in reg.registered && tid !in alreadyProcessed
      requires n < |Edges(reg, aggregates, tid)| && Edges(reg, aggregates, tid)[n] == Edge(text, target)
      requires Recorded(base, reg, aggregates, tid, currentPath, alreadyProcessed, n, output)
      modifies this
      ensures currentPath == old(currentPath) && alreadyProcessed == old(alreadyProcessed)
              && aggregates == old(aggregates)
      ensures Recorded(base, reg, aggregates, tid, currentPath, alreadyProcessed, n + 1, output)
      decreases Remaining(reg, alreadyProcessed), 1
    {
      hide Recorded, Closed, Remaining, Edges;
      RecordNext(base, reg, aggregates, tid, currentPath, alreadyProcessed, n, output);
      Follow(tid, text, target);
    }

    method AttributeLoop(tid: TypeId, ghost base: seq<Entry>)
      requires Closed(reg, aggregates) && tid in reg.registered && tid !in alreadyProcessed
      requires Recorded(base, reg, aggregates, tid, currentPath, alreadyProcessed, 0, output)
      modifies this
      ensures currentPath == old(currentPath) && alreadyProcessed == old(alreadyProcessed)
              && aggregates == old(aggregates)
      ensures Recorded(base, reg, aggregates, tid, currentPath, alreadyProcessed,
                       |AttributeEdges(reg, AttributesOf(reg, tid))|, output)
      decreases Remaining(reg, alreadyProcessed), 2
    {
      hide Recorded, Closed, Remaining, Edges, AttributeEdges, ChildEdges, AggregateEdges;
      EdgeCounts(reg, aggregates, tid);
      var attrs := AttributesOf(reg, tid);
      assert attrs[..0] == [];
      for i := 0 to |attrs|
        invariant currentPath == old(currentPath) && alreadyProcessed == old(alreadyProcessed)
                  && aggregates == old(aggregates)
        invariant |AttributeEdges(reg, attrs[..i])| <= |Edges(reg, aggregates, tid)|
        invariant Recorded(base, reg, aggregates, tid, currentPath, alreadyProcessed,
                           |AttributeEdges(reg, attrs[..i])|, output)
      {
        ghost var n := |AttributeEdges(reg, attrs[..i])|;
        AttributeEdgeAt(reg, aggregates, tid, i);
        if attrs[i].Pointer? {
          if attrs[i].pointee == reg.objectType {
            continue;
          }
          Visit(tid, attrs[i].name, attrs[i].pointee, n, base);
          continue;
        }
        if attrs[i].Container? {
          Visit(tid, attrs[i].name + "/[i]", attrs[i].item, n, base);
          continue;
        }
      }
      assert attrs[..|attrs|] == attrs;
    }

    method ChildLoop(tid: TypeId, ghost base: seq<Entry>)
      requires Closed(reg, aggregates) && tid in reg.registered && tid !in alreadyProcessed
      requires Recorded(base, reg, aggregates, tid, currentPath, alreadyProcessed,
                        |AttributeEdges(reg, AttributesOf(reg, tid))|, output)
      modifies this
      ensures currentPath == old(currentPath) && alreadyProcessed == old(alreadyProcessed)
              && aggregates == old(aggregates)
      ensures Recorded(base, reg, aggregates, tid, currentPath, alreadyProcessed,
                       |AttributeEdges(reg, AttributesOf(reg, tid))| + |ChildEdges(reg, reg.registered, tid)|, output)
      decreases Remaining(reg, alreadyProcessed), 2
    {
      hide Recorded, Closed, Remaining, Edges, AttributeEdges, ChildEdges, AggregateEdges;
      EdgeCounts(reg, aggregates, tid);
      ghost var m := |AttributeEdges(reg, AttributesOf(reg, tid))|;
      assert reg.registered[..0] == [];
      for j := 0 to |reg.registered|
        invariant currentPath == old(currentPath) && alreadyProcessed == old(alreadyProcessed)
                  && aggregates == old(aggregates)
        invariant m + |ChildEdges(reg, reg.registered[..j], tid)| <= |Edges(reg, aggregates, tid)|
        invariant Recorded(base, reg, aggregates, tid, currentPath, alreadyProcessed,
                           m + |ChildEdges(reg, reg.registered[..j], tid)|, output)
      {
        var child := reg.registered[j];
        ghost var n := m + |ChildEdges(reg, reg.registered[..j], tid)|;
        ChildEdgeAt(reg, aggregates, tid, j);
        if (child, tid) in reg.childOf {
          MarkIsPlain(reg, aggregates);
          var childName := TypeNames.MarkScopes("$" + reg.mark + NameOf(reg, child), reg.mark);
          Visit(tid, childName, child, n, base);
        }
      }
      assert reg.registered[..|reg.registered|] == reg.registered;
    }

    method AggregateLoop(tid: TypeId, ghost base: seq<Entry>)
      requires Closed(reg, aggregates) && tid in reg.registered && tid !in alreadyProcessed
      requires Recorded(base, reg, aggregates, tid, currentPath, alreadyProcessed,
                        |AttributeEdges(reg, AttributesOf(reg, tid))| + |ChildEdges(reg, reg.registered, tid)|, output)
      modifies this
      ensures currentPath == old(currentPath) && alreadyProcessed == old(alreadyProcessed)
              && aggregates == old(aggregates)
      ensures Recorded(base, reg, aggregates, tid, currentPath, alreadyProcessed, |Edges(reg, aggregates, tid)|, output)
      decreases Remaining(reg, alreadyProcessed), 2
    {
      hide Recorded, Closed, Remaining, Edges, AttributeEdges, ChildEdges, AggregateEdges;
      EdgeCounts(reg, aggregates, tid);
      ghost var m := |AttributeEdges(reg, AttributesOf(reg, tid))| + |ChildEdges(reg, reg.registered, tid)|;
      assert aggregates[..0] == [];
      for k := 0 to |aggregates|
        invariant currentPath == old(currentPath) && alreadyProcessed == old(alreadyProcessed)
                  && aggregates == old(aggregates)
        invariant m + |AggregateEdges(reg, aggregates[..k], tid)| <= |Edges(reg, aggregates, tid)|
        invariant Recorded(base, reg, aggregates, tid, currentPath, alreadyProcessed,
                           m + |AggregateEdges(reg, aggregates[..k], tid)|, output)
      {
        var pair := aggregates[k];
        ghost var n := m + |AggregateEdges(reg, aggregates[..k], tid)|;
        AggregateEdgeAt(reg, aggregates, tid, k);
        if pair.0 == tid || pair.1 == tid {
          var other := pair.1;
          if pair.1 == tid {
            other := pair.0;
          }
          MarkIsPlain(reg, aggregates);
          var name := TypeNames.MarkScopes("$" + reg.mark + NameOf(reg, other), reg.mark);
          Visit(tid, name, other, n, base);
        }
      }
      assert aggregates[..|aggregates|] == aggregates;
    }

    /** Records the type and every type that a walk from it reaches, one entry for each walk. */
    method DoGather(tid: TypeId)
      requires Closed(reg, aggregates) && tid in reg.registered
      modifies this
      ensures currentPath == old(currentPath) && alreadyProcessed == old(alreadyProcessed)
              && aggregates == old(aggregates)
      ensures output == old(output)
                        + Entries(reg, aggregates, tid, currentPath, Walks(reg, aggregates, tid, alreadyProcessed))
      decreases Remaining(reg, alreadyProcessed), 3
    {
      var found := HasAlreadyBeenProcessed(tid);
      if found {
        return;
      }
      ghost var base := output;
      var text := GetCurrentPath();
      output := output + [(tid, text)];
      AttributeLoop(tid, base);
      ChildLoop(tid, base);
      AggregateLoop(tid, base);
    }

    /** After gathering, the output is sorted, free of duplicates, and exactly the walks' entries are new. */
    method Gather(tid: TypeId)
      requires Closed(reg, aggregates) && tid in reg.registered
      modifies this
      ensures StrictlySorted(output)
      ensures forall e ::
                e in output <==> e in old(output) || IsEntry(reg, aggregates, tid, currentPath, alreadyProcessed, e)
      ensures currentPath == old(currentPath) && alreadyProcessed == old(alreadyProcessed)
              && aggregates == old(aggregates)
    {
      DoGather(tid);
      EntriesOfWalks(reg, aggregates, tid, currentPath, alreadyProcessed);
      ghost var gathered := output;
      output := Sort(output);
      output := Unique(output);
      assert forall e :: e in output <==> e in ToSet(output);
      assert forall e :: e in gathered <==> e in ToSet(gathered);
    }
  }

  /** The entry of some walk from the type that never revisits a type. */
  ghost predicate IsEntry(r: Registry, aggs: Aggregates, tid: TypeId, path: seq<string>, visited: seq<TypeId>,
                          e: Entry) {
    exists w :: IsWalk(r, aggs, tid, visited, w) && e == WalkEntry(r, aggs, tid, path, w)
  }

  lemma EntriesOfWalks(r: Registry, aggs: Aggregates, tid: TypeId, path: seq<string>, visited: seq<TypeId>)
    requires tid in r.registered && Closed(r, aggs)
    ensures var entries := Entries(r, aggs, tid, path, Walks(r, aggs, tid, visited));
            forall e :: e in entries <==> IsEntry(r, aggs, tid, path, visited, e)
  {
    hide Walks, Closed, IsWalk, WalkEntry;
    WalksAreAll(r, aggs, tid, visited);
    var walks := Walks(r, aggs, tid, visited);
    var entries := Entries(r, aggs, tid, path, walks);
    forall e ensures e in entries <==> IsEntry(r, aggs, tid, path, visited, e) {
      if e in entries {
        var k :| 0 <= k < |entries| && entries[k] == e;
        assert walks[k] in walks && IsWalk(r, aggs, tid, visited, walks[k]);
      }
      if IsEntry(r, aggs, tid, path, visited, e) {
        var w :| IsWalk(r, aggs, tid, visited, w) && e == WalkEntry(r, aggs, tid, path, w);
        var k :| 0 <= k < |walks| && walks[k] == w;
        assert entries[k] == e;
      }
    }
  }
}
