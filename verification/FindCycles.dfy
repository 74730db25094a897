/** Enumeration of elementary cycles by an exhaustive search of simple paths. */
module FindCycles {
  import opened Wrappers
  import opened Sequences
  import opened Graphs

  /** Parent to collection of children; an item need not be a key. */
  type Graph = map<Item, seq<Item>>

  function ChildrenOf(g: Graph, x: Item): seq<Item> {
    if x in g then g[x] else []
  }

  ghost predicate Edge(g: Graph, a: Item, b: Item) {
    b in ChildrenOf(g, a)
  }

  ghost predicate Linked(g: Graph, p: seq<Item>) {
    forall i :: 0 <= i < |p| - 1 ==> Edge(g, p[i], p[i + 1])
  }

  ghost predicate SimplePath(g: Graph, start: Item, p: seq<Item>) {
    p != [] && p[0] == start && NoDup(p) && Linked(g, p)
  }

  ghost predicate AllFrom(g: Graph, start: Item, paths: seq<seq<Item>>) {
    forall i :: 0 <= i < |paths| ==> SimplePath(g, start, paths[i])
  }

  /** No item twice, and the last item is a parent of the first. */
  ghost predicate ElementaryCycle(g: Graph, c: seq<Item>) {
    c != [] && NoDup(c) && Linked(g, c) && Edge(g, c[|c| - 1], c[0])
  }

  // ---------------------------------------------------------------- rotations

  function Rotate(s: seq<Item>, k: nat): seq<Item>
    requires k <= |s|
  {
    s[k..] + s[..k]
  }

  ghost predicate IsRotation(a: seq<Item>, b: seq<Item>) {
    |a| == |b| && exists k :: 0 <= k < |a| && b == Rotate(a, k)
  }

  lemma RotationSymmetric(a: seq<Item>, b: seq<Item>)
    requires IsRotation(a, b)
    ensures IsRotation(b, a)
  {
    var k :| 0 <= k < |a| && b == Rotate(a, k);
    if k == 0 {
      assert a == Rotate(b, 0);
    } else {
      assert a == Rotate(b, |a| - k);
    }
  }

  lemma RotationTransitive(a: seq<Item>, b: seq<Item>, c: seq<Item>)
    requires IsRotation(a, b) && IsRotation(b, c)
    ensures IsRotation(a, c)
  {
    var k :| 0 <= k < |a| && b == Rotate(a, k);
    var l :| 0 <= l < |b| && c == Rotate(b, l);
    RotateTwice(a, k, l);
  }

  lemma RotateTwice(a: seq<Item>, k: nat, l: nat)
    requires k < |a| && l < |a|
    ensures Rotate(Rotate(a, k), l) == Rotate(a, if k + l < |a| then k + l else k + l - |a|)
  {
    var b := Rotate(a, k);
    if k + l < |a| {
      assert b[l..] == a[k + l..] + a[..k];
      assert b[..l] == a[k..k + l];
      assert a[..k] + a[k..k + l] == a[..k + l];
    } else {
      var m := k + l - |a|;
      assert b[l..] == a[m..k];
      assert b[..l] == a[k..] + a[..m];
      assert a[m..k] + a[k..] == a[m..];
    }
  }

  /** Whether one sequence is a rotation of the other; with two empty sequences the head lookup fails. */
  method IsRotated(seq1: seq<Item>, seq2: seq<Item>) returns (r: Option<bool>)
    ensures r == None <==> seq1 == [] && seq2 == []
    ensures r.Some? ==> (r.value <==> IsRotation(seq1, seq2))
  {
    if |seq1| != |seq2| {
      return Some(false);
    }
    if seq2 == [] {
      return None;
    }
    var startIndexes: seq<nat> := [];
    var headItem := seq2[0];
    for i := 0 to |seq1|
      invariant forall m :: 0 <= m < |startIndexes| ==> startIndexes[m] < i
      invariant forall k :: 0 <= k < i && seq1[k] == headItem ==> k in startIndexes
    {
      if seq1[i] == headItem {
        startIndexes := startIndexes + [i];
      }
    }
    var doubled := seq1 + seq1;
    for j := 0 to |startIndexes|
      invariant forall m :: 0 <= m < j ==> Rotate(seq1, startIndexes[m]) != seq2
    {
      var k := startIndexes[j];
      assert doubled[k..k + |seq1|] == Rotate(seq1, k);
      if doubled[k..k + |seq1|] == seq2 {
        return Some(true);
      }
    }
    forall k | 0 <= k < |seq1| ensures seq2 != Rotate(seq1, k) {
      if seq1[k] == headItem {
        assert k in startIndexes;
      } else {
        assert Rotate(seq1, k)[0] == seq1[k];
      }
    }
    return Some(false);
  }

  // ---------------------------------------------------------------- the size of the search

  ghost function Universe(g: Graph): set<Item> {
    set k, x | k in g && x in g[k] :: x
  }

  lemma ChildrenInUniverse(g: Graph, x: Item)
    ensures forall i :: 0 <= i < |ChildrenOf(g, x)| ==> ChildrenOf(g, x)[i] in Universe(g)
  {
    forall i | 0 <= i < |ChildrenOf(g, x)| ensures ChildrenOf(g, x)[i] in Universe(g) {
      assert g[x][i] in g[x];
    }
  }

  /** The number of paths that the search pops once `path` is on the stack. */
  ghost function TreeSize(g: Graph, path: seq<Item>): nat
    requires path != []
    decreases |Universe(g) - ToSet(path)|, 1, 0
  {
    ChildrenInUniverse(g, path[|path| - 1]);
    1 + BranchSize(g, path, ChildrenOf(g, path[|path| - 1]))
  }

  ghost function BranchSize(g: Graph, path: seq<Item>, kids: seq<Item>): nat
    requires path != [] && forall i :: 0 <= i < |kids| ==> kids[i] in Universe(g)
    decreases |Universe(g) - ToSet(path)|, 0, |kids|
  {
    if kids == [] then 0
    else
      var init, kid := kids[..|kids| - 1], kids[|kids| - 1];
      BranchSize(g, path, init)
      + if kid in path then 0
        else
          assert ToSet(path + [kid]) == ToSet(path) + {kid};
          SubsetCardinality(Universe(g) - ToSet(path + [kid]), Universe(g) - ToSet(path) - {kid});
          TreeSize(g, path + [kid])
  }

  ghost function StackSize(g: Graph, paths: seq<seq<Item>>): nat
    requires forall i :: 0 <= i < |paths| ==> paths[i] != []
  {
    if paths == [] then 0 else StackSize(g, paths[..|paths| - 1]) + TreeSize(g, paths[|paths| - 1])
  }

  // ---------------------------------------------------------------- what the search maintains

  ghost predicate HasRotation(cycles: seq<seq<Item>>, c: seq<Item>) {
    exists m :: 0 <= m < |cycles| && IsRotation(cycles[m], c)
  }

  /** Every cycle closed by an edge from the end of `q` back into `q` has been found. */
  ghost predicate Closed(g: Graph, q: seq<Item>, cycles: seq<seq<Item>>)
    requires q != []
  {
    forall x :: Edge(g, q[|q| - 1], x) && x in q ==> HasRotation(cycles, q[IndexOf(q, x)..])
  }

  ghost predicate AllClosed(g: Graph, start: Item, cycles: seq<seq<Item>>) {
    forall q :: SimplePath(g, start, q) ==> Closed(g, q, cycles)
  }

  ghost predicate HasPrefixOf(paths: seq<seq<Item>>, q: seq<Item>) {
    exists i :: 0 <= i < |paths| && paths[i] <= q
  }

  /** A simple path from `start` has been dealt with, or one of its prefixes still waits on the stack. */
  ghost predicate Explored(g: Graph, start: Item, cycles: seq<seq<Item>>, paths: seq<seq<Item>>) {
    forall q :: SimplePath(g, start, q) ==> Closed(g, q, cycles) || HasPrefixOf(paths, q)
  }

  /** All elementary, and no two of them rotations of each other. */
  ghost predicate DistinctCycles(g: Graph, cycles: seq<seq<Item>>) {
    && (forall i :: 0 <= i < |cycles| ==> ElementaryCycle(g, cycles[i]))
    && (forall i, j :: 0 <= i < j < |cycles| ==> !IsRotation(cycles[i], cycles[j]))
  }

  ghost predicate Reached(g: Graph, starts: set<Item>, x: Item) {
    exists q :: q != [] && q[0] in starts && SimplePath(g, q[0], q) && q[|q| - 1] == x
  }

  lemma MoreCycles(cycles: seq<seq<Item>>, more: seq<seq<Item>>, c: seq<Item>)
    requires cycles <= more && HasRotation(cycles, c)
    ensures HasRotation(more, c)
  {
    var m :| 0 <= m < |cycles| && IsRotation(cycles[m], c);
    assert more[m] == cycles[m];
  }

  lemma StaysClosed(g: Graph, q: seq<Item>, cycles: seq<seq<Item>>, more: seq<seq<Item>>)
    requires q != [] && Closed(g, q, cycles) && cycles <= more
    ensures Closed(g, q, more)
  {
    forall x | Edge(g, q[|q| - 1], x) && x in q ensures HasRotation(more, q[IndexOf(q, x)..]) {
      MoreCycles(cycles, more, q[IndexOf(q, x)..]);
    }
  }

  /** The tail of a simple path, from the item its end points back to, is an elementary cycle. */
  lemma TailIsCycle(g: Graph, start: Item, path: seq<Item>, kid: Item)
    requires SimplePath(g, start, path) && Edge(g, path[|path| - 1], kid) && kid in path
    ensures ElementaryCycle(g, path[IndexOf(path, kid)..])
  {
    hide IndexOf, Edge, Linked, NoDup;
    var i := IndexOf(path, kid);
    LinkedTail(g, path, i);
    NoDupTail(path, i);
    assert path[i..][|path| - i - 1] == path[|path| - 1] && path[i..][0] == kid;
  }

  lemma LinkedTail(g: Graph, p: seq<Item>, i: nat)
    requires i <= |p| && Linked(g, p)
    ensures Linked(g, p[i..])
  {
    hide Edge;
    var c := p[i..];
    forall j | 0 <= j < |c| - 1 ensures Edge(g, c[j], c[j + 1]) {
      assert Edge(g, p[i + j], p[i + j + 1]);
    }
  }

  lemma NoDupTail(p: seq<Item>, i: nat)
    requires i <= |p| && NoDup(p)
    ensures NoDup(p[i..])
  {
  }

  lemma ExtendPath(g: Graph, start: Item, path: seq<Item>, kid: Item)
    requires SimplePath(g, start, path) && Edge(g, path[|path| - 1], kid) && kid !in path
    ensures SimplePath(g, start, path + [kid])
  {
  }

  /** Popping `path` and pushing its one-step extensions loses no simple path. */
  lemma StillExplored(g: Graph, start: Item, cycles: seq<seq<Item>>, path: seq<Item>, rest: seq<seq<Item>>,
                      cycles': seq<seq<Item>>, paths': seq<seq<Item>>)
    requires SimplePath(g, start, path)
    requires Explored(g, start, cycles, rest + [path]) && cycles <= cycles' && rest <= paths'
    requires Closed(g, path, cycles')
    requires forall kid :: Edge(g, path[|path| - 1], kid) && kid !in path ==> path + [kid] in paths'
    ensures Explored(g, start, cycles', paths')
  {
    hide IndexOf, Edge, HasRotation, HasPrefixOf, Closed;
    forall q | SimplePath(g, start, q)
      ensures Closed(g, q, cycles') || HasPrefixOf(paths', q)
    {
      if Closed(g, q, cycles) {
        StaysClosed(g, q, cycles, cycles');
      } else if q != path {
        PrefixGoesOn(g, start, path, rest, paths', q);
      }
    }
  }

  lemma PrefixGoesOn(g: Graph, start: Item, path: seq<Item>, rest: seq<seq<Item>>, paths': seq<seq<Item>>, q: seq<Item>)
    requires SimplePath(g, start, q) && HasPrefixOf(rest + [path], q) && q != path && path != [] && rest <= paths'
    requires forall kid :: Edge(g, path[|path| - 1], kid) && kid !in path ==> path + [kid] in paths'
    ensures HasPrefixOf(paths', q)
  {
    hide Edge;
    var before := rest + [path];
    var i :| 0 <= i < |before| && before[i] <= q;
    if i < |rest| {
      assert paths'[i] == rest[i];
    } else {
      var n := |path|;
      assert q[..n] == path;
      assert n < |q| by {
        assert q == q[..n] + q[n..];
      }
      assert Edge(g, q[n - 1], q[n - 1 + 1]);
      assert q[n] !in path;
      var k :| 0 <= k < |paths'| && paths'[k] == path + [q[n]];
      assert q[..n + 1] == path + [q[n]];
    }
  }

  // ---------------------------------------------------------------- the search itself

  /** The duplicate check: is the new cycle a rotation of one already found? */
  method IsDup(cycles: seq<seq<Item>>, cycle: seq<Item>) returns (isDup: bool)
    requires cycle != []
    ensures isDup <==> HasRotation(cycles, cycle)
  {
    isDup := false;
    for m := 0 to |cycles|
      invariant forall n :: 0 <= n < m ==> !IsRotation(cycles[n], cycle)
    {
      var rotated := IsRotated(cycles[m], cycle);
      if rotated.value {
        isDup := true;
        break;
      }
    }
  }

  /** One child of the popped path: it closes a cycle, or extends the path. */
  method VisitChild(g: Graph, ghost start: Item, path: seq<Item>, child: Item, paths0: seq<seq<Item>>,
                    cycles0: seq<seq<Item>>, visited0: set<Item>)
    returns (paths: seq<seq<Item>>, cycles: seq<seq<Item>>, visited: set<Item>)
    requires SimplePath(g, start, path) && Edge(g, path[|path| - 1], child)
    requires DistinctCycles(g, cycles0) && AllFrom(g, start, paths0)
    ensures paths0 <= paths && cycles0 <= cycles && DistinctCycles(g, cycles) && AllFrom(g, start, paths)
    ensures if child in path then HasRotation(cycles, path[IndexOf(path, child)..]) else path + [child] in paths
    ensures visited == visited0 + if child in path then {} else {child}
    ensures StackSize(g, paths) == StackSize(g, paths0) + if child in path then 0 else TreeSize(g, path + [child])
  {
    hide IndexOf, StackSize, TreeSize, BranchSize, DistinctCycles, HasRotation, Edge, Linked, NoDup;
    paths, cycles, visited := paths0, cycles0, visited0;
    if child in path {
      TailIsCycle(g, start, path, child);
      var cycle := path[IndexOf(path, child)..];
      var isDup := IsDup(cycles, cycle);
      if !isDup {
        KeepDistinct(g, cycles, cycle);
        cycles := cycles + [cycle];
      }
    } else {
      ExtendPath(g, start, path, child);
      PushSize(g, paths, path + [child]);
      paths := paths + [path + [child]];
      assert paths[|paths| - 1] == path + [child];
      visited := visited + {child};
    }
  }

  /** One iteration of the inner loop, for the path just popped. */
  method ExpandPath(g: Graph, ghost start: Item, path: seq<Item>, rest: seq<seq<Item>>,
                    cycles0: seq<seq<Item>>, visited0: set<Item>)
    returns (paths: seq<seq<Item>>, cycles: seq<seq<Item>>, visited: set<Item>)
    requires SimplePath(g, start, path) && DistinctCycles(g, cycles0)
    requires AllFrom(g, start, rest)
    ensures rest <= paths && cycles0 <= cycles && DistinctCycles(g, cycles)
    ensures AllFrom(g, start, paths)
    ensures forall kid :: Edge(g, path[|path| - 1], kid) && kid !in path ==> path + [kid] in paths
    ensures Closed(g, path, cycles)
    ensures visited == visited0 + NewKids(path, ChildrenOf(g, path[|path| - 1]))
    ensures StackSize(g, paths) == StackSize(g, rest) + TreeSize(g, path) - 1
  {
    hide DistinctCycles, KidsHandled, NewKids, StackSize, TreeSize, BranchSize;
    paths, cycles, visited := rest, cycles0, visited0;
    var children := ChildrenOf(g, path[|path| - 1]);
    ChildrenInUniverse(g, path[|path| - 1]);
    NoKids(g, path, children, cycles, paths);
    assert children[..0] == [];
    for j := 0 to |children|
      invariant rest <= paths && cycles0 <= cycles && DistinctCycles(g, cycles)
      invariant AllFrom(g, start, paths)
      invariant KidsHandled(path, children[..j], cycles, paths)
      invariant visited == visited0 + NewKids(path, children[..j])
      invariant StackSize(g, paths) == StackSize(g, rest) + BranchSize(g, path, children[..j])
    {
      var child := children[j];
      NextKid(g, path, children, j);
      ghost var pathsBefore, cyclesBefore := paths, cycles;
      paths, cycles, visited := VisitChild(g, start, path, child, paths, cycles, visited);
      KidHandled(path, children[..j], child, cyclesBefore, pathsBefore, cycles, paths);
    }
    assert children[..|children|] == children;
    AllKidsHandled(g, path, cycles, paths);
  }

  lemma AllKidsHandled(g: Graph, path: seq<Item>, cycles: seq<seq<Item>>, paths: seq<seq<Item>>)
    requires path != [] && KidsHandled(path, ChildrenOf(g, path[|path| - 1]), cycles, paths)
    ensures forall kid :: Edge(g, path[|path| - 1], kid) && kid !in path ==> path + [kid] in paths
    ensures Closed(g, path, cycles)
  {
  }

  lemma NoKids(g: Graph, path: seq<Item>, kids: seq<Item>, cycles: seq<seq<Item>>, paths: seq<seq<Item>>)
    requires path != [] && forall i :: 0 <= i < |kids| ==> kids[i] in Universe(g)
    requires kids == ChildrenOf(g, path[|path| - 1])
    ensures KidsHandled(path, [], cycles, paths) && NewKids(path, []) == {} && BranchSize(g, path, []) == 0
    ensures TreeSize(g, path) == 1 + BranchSize(g, path, kids)
  {
  }

  /** Each child so far either closes a cycle that has been found or has had its extended path pushed. */
  ghost predicate KidsHandled(path: seq<Item>, kids: seq<Item>, cycles: seq<seq<Item>>, paths: seq<seq<Item>>) {
    forall kid :: kid in kids ==>
      if kid in path then HasRotation(cycles, path[IndexOf(path, kid)..]) else path + [kid] in paths
  }

  ghost function NewKids(path: seq<Item>, kids: seq<Item>): set<Item> {
    set kid | kid in kids && kid !in path
  }

  lemma NextKid(g: Graph, path: seq<Item>, kids: seq<Item>, j: nat)
    requires path != [] && j < |kids| && forall i :: 0 <= i < |kids| ==> kids[i] in Universe(g)
    ensures kids[..j + 1] == kids[..j] + [kids[j]]
    ensures NewKids(path, kids[..j + 1]) == NewKids(path, kids[..j]) + if kids[j] in path then {} else {kids[j]}
    ensures BranchSize(g, path, kids[..j + 1])
            == BranchSize(g, path, kids[..j]) + if kids[j] in path then 0 else TreeSize(g, path + [kids[j]])
  {
    assert kids[..j + 1][..j] == kids[..j];
  }

  lemma KidHandled(path: seq<Item>, kids: seq<Item>, kid: Item, cycles: seq<seq<Item>>, paths: seq<seq<Item>>,
                   cycles': seq<seq<Item>>, paths': seq<seq<Item>>)
    requires KidsHandled(path, kids, cycles, paths) && cycles <= cycles' && paths <= paths'
    requires if kid in path then HasRotation(cycles', path[IndexOf(path, kid)..]) else path + [kid] in paths'
    ensures KidsHandled(path, kids + [kid], cycles', paths')
  {
    forall k | k in kids
      ensures if k in path then HasRotation(cycles', path[IndexOf(path, k)..]) else path + [k] in paths'
    {
      if k in path {
        MoreCycles(cycles, cycles', path[IndexOf(path, k)..]);
      } else {
        var i :| 0 <= i < |paths| && paths[i] == path + [k];
        assert paths'[i] == path + [k];
      }
    }
  }

  lemma KeepDistinct(g: Graph, cycles: seq<seq<Item>>, cycle: seq<Item>)
    requires DistinctCycles(g, cycles) && ElementaryCycle(g, cycle) && !HasRotation(cycles, cycle)
    ensures DistinctCycles(g, cycles + [cycle]) && HasRotation(cycles + [cycle], cycle)
  {
    assert cycle == Rotate(cycle, 0);
    assert (cycles + [cycle])[|cycles|] == cycle;
  }

  lemma PushSize(g: Graph, paths: seq<seq<Item>>, p: seq<Item>)
    requires p != [] && forall i :: 0 <= i < |paths| ==> paths[i] != []
    ensures StackSize(g, paths + [p]) == StackSize(g, paths) + TreeSize(g, p)
  {
    assert (paths + [p])[..|paths|] == paths;
  }

  /** The items the search from one start marks as visited are all reached from that start. */
  lemma NewlyVisited(g: Graph, starts: set<Item>, start: Item, path: seq<Item>, kid: Item)
    requires start in starts && SimplePath(g, start, path)
    requires kid in ChildrenOf(g, path[|path| - 1]) && kid !in path
    ensures Reached(g, starts, kid)
  {
    ExtendPath(g, start, path, kid);
    var q := path + [kid];
    assert q[0] in starts && SimplePath(g, q[0], q) && q[|q| - 1] == kid;
  }

  /** The search from one start node. */
  method SearchFrom(g: Graph, start: Item, ghost starts: set<Item>, cycles0: seq<seq<Item>>, visited0: set<Item>)
    returns (cycles: seq<seq<Item>>, visited: set<Item>)
    requires DistinctCycles(g, cycles0) && start in starts
    requires forall v :: v in visited0 ==> Reached(g, starts, v)
    ensures cycles0 <= cycles && DistinctCycles(g, cycles) && AllClosed(g, start, cycles)
    ensures forall v :: v in visited ==> Reached(g, starts, v)
  {
    cycles, visited := cycles0, visited0;
    var paths := [[start]];
    forall q | SimplePath(g, start, q) ensures HasPrefixOf(paths, q) {
      assert paths[0] <= q;
    }
    while paths != []
      invariant cycles0 <= cycles && DistinctCycles(g, cycles)
      invariant AllFrom(g, start, paths)
      invariant Explored(g, start, cycles, paths)
      invariant forall v :: v in visited ==> Reached(g, starts, v)
      decreases StackSize(g, paths)
    {
      var path, rest := paths[|paths| - 1], paths[..|paths| - 1];
      assert paths == rest + [path];
      ghost var cyclesBefore, visitedBefore := cycles, visited;
      paths, cycles, visited := ExpandPath(g, start, path, rest, cycles, visited);
      StillExplored(g, start, cyclesBefore, path, rest, cycles, paths);
      forall v | v in visited ensures Reached(g, starts, v) {
        if v !in visitedBefore {
          NewlyVisited(g, starts, start, path, v);
        }
      }
    }
  }

  lemma ReachedFromMore(g: Graph, starts: set<Item>, more: set<Item>, x: Item)
    requires Reached(g, starts, x) && starts <= more
    ensures Reached(g, more, x)
  {
    var q :| q != [] && q[0] in starts && SimplePath(g, q[0], q) && q[|q| - 1] == x;
    assert q[0] in more;
  }

  lemma StaysAllClosed(g: Graph, start: Item, cycles: seq<seq<Item>>, more: seq<seq<Item>>)
    requires AllClosed(g, start, cycles) && cycles <= more
    ensures AllClosed(g, start, more)
  {
    forall q | SimplePath(g, start, q) ensures Closed(g, q, more) {
      StaysClosed(g, q, cycles, more);
    }
  }

  lemma RotatedCycle(g: Graph, c: seq<Item>, i: nat)
    requires ElementaryCycle(g, c) && i < |c|
    ensures ElementaryCycle(g, Rotate(c, i))
  {
    var r := Rotate(c, i);
    var n := |c|;
    assert forall j :: 0 <= j < n ==> r[j] == if j < n - i then c[i + j] else c[j - (n - i)];
    forall j | 0 <= j < n - 1 ensures Edge(g, r[j], r[j + 1]) {
      if j + 1 < n - i {
        assert Edge(g, c[i + j], c[i + j + 1]);
      } else if j + 1 > n - i {
        assert Edge(g, c[j - (n - i)], c[j - (n - i) + 1]);
      }
    }
    if i > 0 {
      assert Edge(g, c[i - 1], c[i - 1 + 1]);
    }
  }

  /** The first place where a path enters a set that its end lies in. */
  lemma {:induction false} FirstEntry(q: seq<Item>, c: seq<Item>) returns (j: nat)
    requires q != [] && q[|q| - 1] in c
    ensures j < |q| && q[j] in c && forall k :: 0 <= k < j ==> q[k] !in c
  {
    j := 0;
    while q[j] !in c
      invariant j < |q| && forall k :: 0 <= k < j ==> q[k] !in c
      decreases |q| - j
    {
      j := j + 1;
    }
  }

  /** A simple path up to a cycle, followed once around the cycle, is a simple path. */
  lemma RunAround(g: Graph, q: seq<Item>, j: nat, c: seq<Item>)
    requires q != [] && SimplePath(g, q[0], q) && j < |q| && ElementaryCycle(g, c) && q[j] == c[0]
    requires forall k :: 0 <= k < j ==> q[k] !in c
    ensures SimplePath(g, q[0], q[..j] + c)
  {
    var r := q[..j] + c;
    forall i | 0 <= i < |r| - 1 ensures Edge(g, r[i], r[i + 1]) {
      if i + 1 <= j {
        assert Edge(g, q[i], q[i + 1]);
      } else {
        assert Edge(g, c[i - j], c[i - j + 1]);
      }
    }
  }

  /** Any cycle with an item reached from an explored start has been found, up to rotation. */
  lemma CycleIsFound(g: Graph, starts: set<Item>, cycles: seq<seq<Item>>, c: seq<Item>)
    requires ElementaryCycle(g, c) && Reached(g, starts, c[0])
    requires forall s :: s in starts ==> AllClosed(g, s, cycles)
    ensures HasRotation(cycles, c)
  {
    hide Linked, NoDup, IndexOf, Rotate, Edge, Closed, ElementaryCycle, SimplePath, HasRotation, IsRotation;
    CycleNotEmpty(g, c);
    var q :| q != [] && q[0] in starts && SimplePath(g, q[0], q) && q[|q| - 1] == c[0];
    var j := FirstEntry(q, c);
    var i := IndexOf(c, q[j]);
    var c' := Rotate(c, i);
    RotatedCycle(g, c, i);
    RotationMembers(c, i);
    RunAround(g, q, j, c');
    ClosesInto(g, q[..j], c', cycles);
    RotationOfFound(cycles, c, i);
  }

  lemma CycleNotEmpty(g: Graph, c: seq<Item>)
    requires ElementaryCycle(g, c)
    ensures c != []
  {
  }

  lemma RotationMembers(c: seq<Item>, i: nat)
    requires i < |c|
    ensures |Rotate(c, i)| == |c| && Rotate(c, i)[0] == c[i] && forall x :: x in Rotate(c, i) ==> x in c
  {
  }

  /** A path that ends by running around a cycle closes that cycle. */
  lemma ClosesInto(g: Graph, lead: seq<Item>, c: seq<Item>, cycles: seq<seq<Item>>)
    requires ElementaryCycle(g, c) && Closed(g, lead + c, cycles) && c[0] !in lead
    ensures HasRotation(cycles, c)
  {
    hide IndexOf, Edge, NoDup, Linked, HasRotation;
    var r := lead + c;
    assert forall k :: 0 <= k < |lead| ==> r[k] == lead[k] && lead[k] in lead;
    IndexIs(r, c[0], |lead|);
    assert r[|r| - 1] == c[|c| - 1] && r[|lead|] == c[0] && r[|lead|..] == c;
  }

  lemma RotationOfFound(cycles: seq<seq<Item>>, c: seq<Item>, i: nat)
    requires i < |c| && HasRotation(cycles, Rotate(c, i))
    ensures HasRotation(cycles, c)
  {
    hide Rotate, IsRotation;
    var r := Rotate(c, i);
    var m :| 0 <= m < |cycles| && IsRotation(cycles[m], r);
    RotationIntro(c, i);
    RotationSymmetric(c, r);
    RotationTransitive(cycles[m], r, c);
  }

  lemma RotationIntro(c: seq<Item>, i: nat)
    requires i < |c|
    ensures IsRotation(c, Rotate(c, i))
  {
  }

  /** All cycles the generator yields, in order. */
  method FindCycles(parentChildren: Graph) returns (cycles: seq<seq<Item>>)
    ensures forall i :: 0 <= i < |cycles| ==> ElementaryCycle(parentChildren, cycles[i])
    ensures forall i, j :: 0 <= i < j < |cycles| ==> !IsRotation(cycles[i], cycles[j])
    ensures forall c :: ElementaryCycle(parentChildren, c) ==> HasRotation(cycles, c)
  {
    cycles := [];
    var g, visited, rest := parentChildren, {}, parentChildren.Keys;
    ghost var starts: set<Item> := {};
    while rest != {}
      invariant rest <= g.Keys && DistinctCycles(g, cycles)
      invariant forall s :: s in starts ==> AllClosed(g, s, cycles)
      invariant forall v :: v in visited ==> Reached(g, starts, v)
      invariant forall x :: x in g.Keys - rest ==> Reached(g, starts, x)
      decreases rest
    {
      var parent :| parent in rest;
      rest := rest - {parent};
      if parent !in visited {
        ghost var before, startsBefore := cycles, starts;
        starts := starts + {parent};
        forall x | Reached(g, startsBefore, x) ensures Reached(g, starts, x) {
          ReachedFromMore(g, startsBefore, starts, x);
        }
        cycles, visited := SearchFrom(g, parent, starts, cycles, visited);
        forall s | s in startsBefore ensures AllClosed(g, s, cycles) {
          StaysAllClosed(g, s, before, cycles);
        }
        assert SimplePath(g, parent, [parent]) && [parent][0] in starts;
        assert Reached(g, starts, parent);
      }
    }
    forall c | ElementaryCycle(g, c) ensures HasRotation(cycles, c) {
      assert c[0] in g by {
        if |c| > 1 {
          assert Edge(g, c[0], c[0 + 1]);
        }
      }
      CycleIsFound(g, starts, cycles, c);
    }
  }
}
