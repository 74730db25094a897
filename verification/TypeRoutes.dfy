/** What the search for configuration paths follows and records, told without its loops. */
module TypeRoutes {
  import opened Sequences
  import opened TypeGather
  import TypeNames

  // ---------------------------------------------------------------- the followed edges

  ghost predicate AttributeGives(r: Registry, a: Attribute, text: string, target: TypeId) {
    || (a == Pointer(text, target) && target != r.objectType)
    || (a.Container? && a.item == target && text == a.name + "/[i]")
  }

  ghost predicate AggregationJoins(pair: (TypeId, TypeId), tid: TypeId, target: TypeId) {
    pair == (tid, target) || pair == (target, tid)
  }

  /** An attribute, a registered child, or an aggregation with the type at either end leads on from it. */
  ghost predicate LeadsTo(r: Registry, aggs: Aggregates, tid: TypeId, text: string, target: TypeId) {
    || (exists i :: 0 <= i < |AttributesOf(r, tid)| && AttributeGives(r, AttributesOf(r, tid)[i], text, target))
    || (target in r.registered && (target, tid) in r.childOf && text == TypeLabel(r, target))
    || (exists k :: 0 <= k < |aggs| && AggregationJoins(aggs[k], tid, target) && text == TypeLabel(r, target))
  }

  lemma {:induction false} AttributeEdgesAre(r: Registry, attrs: seq<Attribute>, e: Edge)
    ensures e in AttributeEdges(r, attrs)
            <==> exists i :: 0 <= i < |attrs| && AttributeGives(r, attrs[i], e.text, e.target)
  {
    if attrs != [] {
      var n := |attrs| - 1;
      AttributeEdgesAre(r, attrs[..n], e);
      assert e in AttributeEdge(r, attrs[n]) <==> AttributeGives(r, attrs[n], e.text, e.target);
    }
  }

  lemma {:induction false} ChildEdgesAre(r: Registry, types: seq<TypeId>, tid: TypeId, e: Edge)
    ensures e in ChildEdges(r, types, tid)
            <==> e.target in types && (e.target, tid) in r.childOf && e.text == TypeLabel(r, e.target)
  {
    hide TypeLabel;
    if types != [] {
      var n := |types| - 1;
      ChildEdgesAre(r, types[..n], tid, e);
      assert e.target in types <==> e.target in types[..n] || e.target == types[n];
    }
  }

  lemma {:induction false} AggregateEdgesAre(r: Registry, aggs: Aggregates, tid: TypeId, e: Edge)
    ensures e in AggregateEdges(r, aggs, tid)
            <==> exists k ::
                   0 <= k < |aggs| && AggregationJoins(aggs[k], tid, e.target) && e.text == TypeLabel(r, e.target)
  {
    hide TypeLabel;
    if aggs != [] {
      var n := |aggs| - 1;
      AggregateEdgesAre(r, aggs[..n], tid, e);
      assert e in AggregateEdge(r, aggs[n], tid)
             <==> AggregationJoins(aggs[n], tid, e.target) && e.text == TypeLabel(r, e.target);
    }
  }

  /** These are all the edges that the search follows. */
  lemma EdgesAre(r: Registry, aggs: Aggregates, tid: TypeId, text: string, target: TypeId)
    ensures Edge(text, target) in Edges(r, aggs, tid) <==> LeadsTo(r, aggs, tid, text, target)
  {
    hide AttributeEdges, ChildEdges, AggregateEdges, TypeLabel, AttributesOf;
    var e := Edge(text, target);
    AttributeEdgesAre(r, AttributesOf(r, tid), e);
    ChildEdgesAre(r, r.registered, tid, e);
    AggregateEdgesAre(r, aggs, tid, e);
  }

  /** A type is labelled with a dollar sign, the mark, and its name with the mark after every scope operator. */
  lemma LabelIs(r: Registry, tid: TypeId)
    ensures r.mark == "" ==> TypeLabel(r, tid) == "$" + NameOf(r, tid)
    ensures r.mark == "%" ==> TypeLabel(r, tid) == "$%" + TypeNames.Marked(NameOf(r, tid), "%")
    ensures r.mark == "%" && '%' !in NameOf(r, tid) ==>
              var rest := TypeLabel(r, tid)[2..];
              && TypeLabel(r, tid)[..2] == "$%" && TypeNames.Without(rest, '%') == NameOf(r, tid)
              && (forall k: nat :: TypeNames.ScopeAt(rest, k) ==> k + 2 < |rest| && rest[k + 2] == '%')
              && (forall k: nat :: k < |rest| && rest[k] == '%' ==> k >= 2 && TypeNames.ScopeAt(rest, k - 2))
  {
    var name := NameOf(r, tid);
    if r.mark == "" {
      assert "$" + "" + name == "$" + name;
      TypeNames.EmptyMark("$" + name);
    } else if r.mark == "%" {
      LabelParts(name);
      if '%' !in name {
        TypeNames.MarkedReadsBack(name, '%');
        TypeNames.ScopesAreMarked(name, '%');
      }
    }
  }

  lemma LabelParts(name: string)
    ensures TypeNames.Marked("$" + "%" + name, "%") == "$%" + TypeNames.Marked(name, "%")
  {
    var whole, rest := "$" + "%" + name, "%" + name;
    assert whole[..2] == "$%" && whole[0] == '$' && whole[1..] == rest;
    assert TypeNames.Marked(whole, "%") == "$" + TypeNames.Marked(rest, "%");
    assert rest[1..] == name;
    if name == [] {
      assert rest == "%";
    } else {
      assert rest[..2][0] == '%';
      assert TypeNames.Marked(rest, "%") == "%" + TypeNames.Marked(name, "%");
    }
  }

  // ---------------------------------------------------------------- routes

  datatype Hop = Hop(text: string, target: TypeId)

  ghost predicate IsRoute(r: Registry, aggs: Aggregates, tid: TypeId, visited: seq<TypeId>, hops: seq<Hop>)
    decreases |hops|
  {
    && tid !in visited
    && (hops != [] ==>
          && LeadsTo(r, aggs, tid, hops[0].text, hops[0].target)
          && IsRoute(r, aggs, hops[0].target, visited + [tid], hops[1..]))
  }

  function RouteEnd(tid: TypeId, hops: seq<Hop>): TypeId {
    if hops == [] then tid else hops[|hops| - 1].target
  }

  function RouteText(hops: seq<Hop>): string {
    if hops == [] then "" else "/" + hops[0].text + RouteText(hops[1..])
  }

  ghost predicate IsRouteEntry(r: Registry, aggs: Aggregates, tid: TypeId, path: seq<string>, visited: seq<TypeId>,
                               e: Entry)
  {
    exists hops :: IsRoute(r, aggs, tid, visited, hops) && e == (RouteEnd(tid, hops), PathText(path) + RouteText(hops))
  }

  lemma PathGrows(path: seq<string>, text: string)
    ensures PathText(path + [text]) == PathText(path) + "/" + text
  {
    assert (path + [text])[..|path|] == path;
  }

  lemma FirstHop(tid: TypeId, path: seq<string>, hops: seq<Hop>)
    requires hops != []
    ensures RouteEnd(tid, hops) == RouteEnd(hops[0].target, hops[1..])
    ensures PathText(path) + RouteText(hops) == PathText(path + [hops[0].text]) + RouteText(hops[1..])
  {
    hide PathText;
    PathGrows(path, hops[0].text);
    Regroup(PathText(path), "/", hops[0].text, RouteText(hops[1..]));
  }

  lemma Regroup(a: string, b: string, c: string, d: string)
    ensures a + (b + c + d) == a + b + c + d
  {
  }

  lemma {:induction false} RouteOfWalk(r: Registry, aggs: Aggregates, tid: TypeId, path: seq<string>,
                                       visited: seq<TypeId>, walk: seq<nat>) returns (hops: seq<Hop>)
    requires IsWalk(r, aggs, tid, visited, walk)
    ensures IsRoute(r, aggs, tid, visited, hops)
    ensures WalkEntry(r, aggs, tid, path, walk) == (RouteEnd(tid, hops), PathText(path) + RouteText(hops))
    decreases |walk|
  {
    hide Edges, LeadsTo, PathText;
    hops := [];
    if walk == [] {
      assert PathText(path) + "" == PathText(path);
    } else {
      var e := Edges(r, aggs, tid)[walk[0]];
      EdgesAre(r, aggs, tid, e.text, e.target);
      var rest := RouteOfWalk(r, aggs, e.target, path + [e.text], visited + [tid], walk[1..]);
      hops := [Hop(e.text, e.target)] + rest;
      assert hops[1..] == rest;
      FirstHop(tid, path, hops);
    }
  }

  lemma {:induction false} WalkOfRoute(r: Registry, aggs: Aggregates, tid: TypeId, path: seq<string>,
                                       visited: seq<TypeId>, hops: seq<Hop>) returns (walk: seq<nat>)
    requires IsRoute(r, aggs, tid, visited, hops)
    ensures IsWalk(r, aggs, tid, visited, walk)
    ensures WalkEntry(r, aggs, tid, path, walk) == (RouteEnd(tid, hops), PathText(path) + RouteText(hops))
    decreases |hops|
  {
    hide Edges, LeadsTo, PathText;
    walk := [];
    if hops == [] {
      assert PathText(path) + "" == PathText(path);
    } else {
      var text, target := hops[0].text, hops[0].target;
      EdgesAre(r, aggs, tid, text, target);
      var i: nat :| i < |Edges(r, aggs, tid)| && Edges(r, aggs, tid)[i] == Edge(text, target);
      var rest := WalkOfRoute(r, aggs, target, path + [text], visited + [tid], hops[1..]);
      walk := [i] + rest;
      assert walk[1..] == rest;
      FirstHop(tid, path, hops);
    }
  }

  /** The recorded entries are exactly those of the routes that never come back to a type. */
  lemma EntriesAreRoutes(r: Registry, aggs: Aggregates, tid: TypeId, path: seq<string>, visited: seq<TypeId>, e: Entry)
    ensures IsEntry(r, aggs, tid, path, visited, e) <==> IsRouteEntry(r, aggs, tid, path, visited, e)
  {
    hide IsWalk, WalkEntry, IsRoute, RouteEnd, RouteText, PathText;
    if walk :| IsWalk(r, aggs, tid, visited, walk) && e == WalkEntry(r, aggs, tid, path, walk) {
      var hops := RouteOfWalk(r, aggs, tid, path, visited, walk);
    }
    if hops :| IsRoute(r, aggs, tid, visited, hops) && e == (RouteEnd(tid, hops), PathText(path) + RouteText(hops)) {
      var walk := WalkOfRoute(r, aggs, tid, path, visited, hops);
    }
  }

  /** Whatever the type leads to is recorded under the text of that edge. */
  lemma OneHopIsRecorded(r: Registry, aggs: Aggregates, tid: TypeId, text: string, target: TypeId)
    requires LeadsTo(r, aggs, tid, text, target) && target != tid
    ensures IsEntry(r, aggs, tid, [], [], (target, "/" + text)) && IsEntry(r, aggs, tid, [], [], (tid, ""))
  {
    hide LeadsTo;
    var hops := [Hop(text, target)];
    assert IsRoute(r, aggs, tid, [], []);
    assert hops[1..] == [] && IsRoute(r, aggs, target, [] + [tid], []);
    assert IsRoute(r, aggs, tid, [], hops);
    assert RouteText(hops) == "/" + text + RouteText([]) && RouteText([]) == "";
    assert PathText([]) + RouteText(hops) == "/" + text;
    assert IsRouteEntry(r, aggs, tid, [], [], (target, "/" + text));
    EntriesAreRoutes(r, aggs, tid, [], [], (target, "/" + text));
    assert PathText([]) + RouteText([]) == "" && RouteEnd(tid, []) == tid;
    EntriesAreRoutes(r, aggs, tid, [], [], (tid, ""));
  }

  /** An aggregation leads from each of its two types to the other. */
  lemma AggregationGoesBothWays(r: Registry, aggs: Aggregates, a: TypeId, b: TypeId)
    requires (a, b) in aggs && a != b
    ensures IsEntry(r, aggs, a, [], [], (b, "/" + TypeLabel(r, b)))
    ensures IsEntry(r, aggs, b, [], [], (a, "/" + TypeLabel(r, a)))
  {
    hide TypeLabel, IsEntry;
    var k :| 0 <= k < |aggs| && aggs[k] == (a, b);
    assert AggregationJoins(aggs[k], a, b) && AggregationJoins(aggs[k], b, a);
    OneHopIsRecorded(r, aggs, a, TypeLabel(r, b), b);
    OneHopIsRecorded(r, aggs, b, TypeLabel(r, a), a);
  }

  /** So do containers, to their items, pointers, except to the root Object type, and parents, to their children. */
  lemma AttributesAndChildrenLead(r: Registry, aggs: Aggregates, tid: TypeId, a: Attribute, child: TypeId)
    requires a in AttributesOf(r, tid)
    ensures a.Container? && a.item != tid ==> IsEntry(r, aggs, tid, [], [], (a.item, "/" + (a.name + "/[i]")))
    ensures a.Pointer? && a.pointee != tid && a.pointee != r.objectType ==>
              IsEntry(r, aggs, tid, [], [], (a.pointee, "/" + a.name))
    ensures child in r.registered && (child, tid) in r.childOf && child != tid ==>
              IsEntry(r, aggs, tid, [], [], (child, "/" + TypeLabel(r, child)))
  {
    hide TypeLabel, IsEntry, AttributesOf;
    var i :| 0 <= i < |AttributesOf(r, tid)| && AttributesOf(r, tid)[i] == a;
    if a.Container? && a.item != tid {
      assert AttributeGives(r, a, a.name + "/[i]", a.item);
      OneHopIsRecorded(r, aggs, tid, a.name + "/[i]", a.item);
    }
    if a.Pointer? && a.pointee != tid && a.pointee != r.objectType {
      assert AttributeGives(r, a, a.name, a.pointee);
      OneHopIsRecorded(r, aggs, tid, a.name, a.pointee);
    }
    if child in r.registered && (child, tid) in r.childOf && child != tid {
      OneHopIsRecorded(r, aggs, tid, TypeLabel(r, child), child);
    }
  }

  // ---------------------------------------------------------------- the order of the output

  ghost predicate DiffersAt(s: string, t: string, k: nat) {
    k < |s| && k < |t| && s[..k] == t[..k] && s[k] < t[k]
  }

  /** Strings are compared at the first place where they differ; a proper prefix comes first. */
  lemma {:induction false} StringsAreLexicographic(s: string, t: string)
    ensures StringLess(s, t) <==> (s <= t && s != t) || exists k: nat :: DiffersAt(s, t, k)
  {
    if s != [] && t != [] {
      StringsAreLexicographic(s[1..], t[1..]);
      assert s == [s[0]] + s[1..] && t == [t[0]] + t[1..];
      if k: nat :| DiffersAt(s, t, k) {
        if k > 0 {
          assert s[..k][0] == t[..k][0] && s[..k][1..] == s[1..][..k - 1] && t[..k][1..] == t[1..][..k - 1];
          assert DiffersAt(s[1..], t[1..], k - 1);
        }
      }
      if s[0] == t[0] {
        if k: nat :| DiffersAt(s[1..], t[1..], k) {
          assert s[..k + 1] == [s[0]] + s[1..][..k] && t[..k + 1] == [t[0]] + t[1..][..k];
          assert DiffersAt(s, t, k + 1);
        }
      } else if s[0] < t[0] {
        assert DiffersAt(s, t, 0);
      }
    }
  }

  /** Entries are ordered by type first, and then by path. */
  lemma OutputOrder(s: seq<Entry>, i: nat, j: nat)
    requires StrictlySorted(s) && i < j < |s|
    ensures s[i].0 < s[j].0
            || (s[i].0 == s[j].0
                && ((s[i].1 <= s[j].1 && s[i].1 != s[j].1) || exists k: nat :: DiffersAt(s[i].1, s[j].1, k)))
  {
    StringsAreLexicographic(s[i].1, s[j].1);
  }
}
