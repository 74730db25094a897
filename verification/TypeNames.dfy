/** Type names in configuration paths: a mark after every scope operator keeps Doxygen from resolving them. */
module TypeNames {
  /** The name with the mark after every scope operator, scanning from the left. */
  function Marked(name: string, mark: string): string {
    if |name| < 2 then name
    else if name[..2] == "::" then "::" + mark + Marked(name[2..], mark)
    else [name[0]] + Marked(name[1..], mark)
  }

  function Without(s: string, c: char): string {
    if s == [] then [] else (if s[0] == c then [] else [s[0]]) + Without(s[1..], c)
  }

  lemma {:induction false} WithoutConcat(a: string, b: string, c: char)
    ensures Without(a + b, c) == Without(a, c) + Without(b, c)
  {
    if a == [] {
      assert a + b == b;
    } else {
      WithoutConcat(a[1..], b, c);
      assert (a + b)[1..] == a[1..] + b;
      Assoc(if a[0] == c then [] else [a[0]], Without(a[1..], c), Without(b, c));
    }
  }

  /** Marking loses nothing: names without the mark character can be read back. */
  lemma {:induction false} MarkedReadsBack(name: string, c: char)
    requires c !in name && c != ':'
    ensures Without(Marked(name, [c]), c) == name
  {
    if |name| >= 2 {
      if name[..2] == "::" {
        MarkedReadsBack(name[2..], c);
        WithoutConcat("::" + [c], Marked(name[2..], [c]), c);
        assert Without("::" + [c], c) == "::" by {
          WithoutConcat("::", [c], c);
          assert Without("::", c) == "::" by {
            assert "::"[1..] == ":" && ":"[1..] == "";
          }
        }
        assert name == "::" + name[2..];
      } else {
        MarkedReadsBack(name[1..], c);
        WithoutConcat([name[0]], Marked(name[1..], [c]), c);
        assert name == [name[0]] + name[1..];
      }
    } else if |name| == 1 {
      assert name[1..] == "";
    }
  }

  /** The mark stands after every scope operator of the result, and nowhere else. */
  lemma {:induction false} ScopesAreMarked(name: string, c: char)
    requires c !in name && c != ':'
    ensures var m := Marked(name, [c]);
            && (forall k: nat :: ScopeAt(m, k) ==> k + 2 < |m| && m[k + 2] == c)
            && (forall k: nat :: k < |m| && m[k] == c ==> k >= 2 && ScopeAt(m, k - 2))
            && (m != [] <==> name != []) && (m != [] ==> m[0] == name[0])
  {
    if |name| >= 2 {
      var m := Marked(name, [c]);
      if name[..2] == "::" {
        ScopesAreMarked(name[2..], c);
        AfterScope("::" + [c], Marked(name[2..], [c]), c);
      } else {
        ScopesAreMarked(name[1..], c);
        AfterPlain([name[0]], Marked(name[1..], [c]), c);
        assert name[1..][0] == name[1];
        assert name[..2] == [name[0], name[1]];
      }
    }
  }

  lemma AfterScope(head: string, tail: string, c: char)
    requires |head| == 3 && head[0] == head[1] == ':' && head[2] == c && c != ':'
    requires forall k: nat :: ScopeAt(tail, k) ==> k + 2 < |tail| && tail[k + 2] == c
    requires forall k: nat :: k < |tail| && tail[k] == c ==> k >= 2 && ScopeAt(tail, k - 2)
    ensures var m := head + tail;
            && (forall k: nat :: ScopeAt(m, k) ==> k + 2 < |m| && m[k + 2] == c)
            && (forall k: nat :: k < |m| && m[k] == c ==> k >= 2 && ScopeAt(m, k - 2))
  {
    var m := head + tail;
    forall k: nat | ScopeAt(m, k) ensures k + 2 < |m| && m[k + 2] == c {
      assert k > 0 ==> k >= 3 && ScopeAt(tail, k - 3);
    }
    forall k: nat | k < |m| && m[k] == c ensures k >= 2 && ScopeAt(m, k - 2) {
      assert k > 2 ==> tail[k - 3] == c && ScopeAt(tail, k - 3 - 2);
    }
  }

  lemma AfterPlain(head: string, tail: string, c: char)
    requires |head| == 1 && head[0] != c && !(head[0] == ':' && tail != [] && tail[0] == ':')
    requires forall k: nat :: ScopeAt(tail, k) ==> k + 2 < |tail| && tail[k + 2] == c
    requires forall k: nat :: k < |tail| && tail[k] == c ==> k >= 2 && ScopeAt(tail, k - 2)
    ensures var m := head + tail;
            && (forall k: nat :: ScopeAt(m, k) ==> k + 2 < |m| && m[k + 2] == c)
            && (forall k: nat :: k < |m| && m[k] == c ==> k >= 2 && ScopeAt(m, k - 2))
  {
    var m := head + tail;
    forall k: nat | ScopeAt(m, k) ensures k + 2 < |m| && m[k + 2] == c {
      assert k > 0 && ScopeAt(tail, k - 1);
    }
    forall k: nat | k < |m| && m[k] == c ensures k >= 2 && ScopeAt(m, k - 2) {
      assert k > 0 && tail[k - 1] == c && ScopeAt(tail, k - 1 - 2);
    }
  }

  lemma {:induction false} EmptyMark(name: string)
    ensures Marked(name, "") == name
  {
    if |name| >= 2 {
      if name[..2] == "::" {
        EmptyMark(name[2..]);
      } else {
        EmptyMark(name[1..]);
      }
    }
  }

  predicate ScopeAt(s: string, k: nat) {
    k + 2 <= |s| && s[k] == ':' && s[k + 1] == ':'
  }

  /** The first scope operator at or after `from`; the length of the string if there is none. */
  method Find(s: string, from: nat) returns (j: nat)
    ensures forall k :: from <= k < j ==> !ScopeAt(s, k)
    ensures if j < |s| then from <= j && ScopeAt(s, j) else forall k :: from <= k ==> !ScopeAt(s, k)
  {
    j := from;
    while j < |s| && !ScopeAt(s, j)
      invariant forall k :: from <= k < j ==> !ScopeAt(s, k)
      invariant from <= j
      decreases |s| - j
    {
      j := j + 1;
    }
  }

  lemma {:induction false} MarkedSkips(s: string, mark: string, n: nat)
    requires n <= |s| && forall k :: 0 <= k < n ==> !ScopeAt(s, k)
    ensures Marked(s, mark) == s[..n] + Marked(s[n..], mark)
  {
    if n == 0 {
      assert s[..0] == [] && s[0..] == s;
    } else if |s| < 2 {
      assert s[n..] == [] && s[..n] == s;
    } else {
      assert !ScopeAt(s, 0) && s[..2] != "::";
      assert forall k :: 0 <= k < n - 1 ==> (ScopeAt(s[1..], k) <==> ScopeAt(s, k + 1));
      MarkedSkips(s[1..], mark, n - 1);
      SplitAfterHead(s, n);
      Assoc([s[0]], s[1..][..n - 1], Marked(s[n..], mark));
    }
  }

  lemma SplitAfterHead(s: string, n: nat)
    requires 0 < n <= |s|
    ensures s[1..][n - 1..] == s[n..] && s[..n] == [s[0]] + s[1..][..n - 1]
  {
  }

  /** The in-place replacement of every "::" by "::" and the mark. */
  method MarkScopes(name: string, mark: string) returns (source: string)
    requires ':' !in mark
    ensures source == Marked(name, mark)
  {
    hide Marked;
    source := name;
    ghost var done: nat := 0;
    var j := Find(source, 0);
    EmptyMark(name);
    while j < |source|
      invariant done <= |source| && done <= j
      invariant mark == "" ==> source == name && done == 0
      invariant mark != "" ==>
        && Marked(name, mark) == source[..done] + Marked(source[done..], mark)
        && (forall k :: done <= k < j ==> !ScopeAt(source, k))
        && (j >= |source| ==> forall k :: done <= k ==> !ScopeAt(source, k))
      invariant j < |source| ==> ScopeAt(source, j)
      decreases |source| - done, |source| - j
    {
      ghost var before := source;
      source := source[..j] + ("::" + mark) + source[j + 2..];
      if mark == "" {
        assert source == before;
      } else {
        ReplaceOne(name, before, done, j, mark);
        done := j + 2 + |mark|;
        NoScopeInMark(before, j, mark);
      }
      j := Find(source, j + 1);
    }
    if mark != "" {
      NoScopeLeft(source, done, mark);
    }
  }

  lemma NoScopeInMark(s: string, j: nat, mark: string)
    requires ScopeAt(s, j) && mark != "" && ':' !in mark
    ensures var r := s[..j] + ("::" + mark) + s[j + 2..];
            forall k :: j + 1 <= k < j + 2 + |mark| ==> !ScopeAt(r, k)
  {
    var r := s[..j] + ("::" + mark) + s[j + 2..];
    assert r[j + 1] == ':' && r[j + 2] == mark[0];
    assert forall k :: j + 2 <= k < j + 2 + |mark| ==> r[k] == mark[k - j - 2];
  }

  lemma NoScopeLeft(s: string, done: nat, mark: string)
    requires done <= |s| && forall k :: done <= k ==> !ScopeAt(s, k)
    ensures s[..done] + Marked(s[done..], mark) == s
  {
    var rest := s[done..];
    assert forall k :: 0 <= k ==> (ScopeAt(rest, k) ==> ScopeAt(s, done + k));
    MarkedSkips(rest, mark, |rest|);
    assert rest[|rest|..] == "" && rest[..|rest|] == rest;
  }

  lemma ReplaceOne(name: string, s: string, done: nat, j: nat, mark: string)
    requires done <= j && ScopeAt(s, j) && (forall k :: done <= k < j ==> !ScopeAt(s, k))
    requires Marked(name, mark) == s[..done] + Marked(s[done..], mark)
    ensures var r := s[..j] + ("::" + mark) + s[j + 2..];
            Marked(name, mark) == r[..j + 2 + |mark|] + Marked(r[j + 2 + |mark|..], mark)
  {
    var rest := s[done..];
    assert forall k :: 0 <= k < j - done ==> (ScopeAt(rest, k) <==> ScopeAt(s, done + k));
    MarkedSkips(rest, mark, j - done);
    ReplacePieces(s, done, j, mark);
    var tail := Marked(s[j + 2..], mark);
    MarkedAtScope(s, j, mark);
    hide Marked;
    Assoc(s[..done], s[done..j], "::" + mark + tail);
    Assoc(s[..j], "::" + mark, tail);
  }

  lemma Assoc(a: string, b: string, c: string)
    ensures a + (b + c) == a + b + c
  {
  }

  lemma MarkedAtScope(s: string, j: nat, mark: string)
    requires ScopeAt(s, j)
    ensures Marked(s[j..], mark) == "::" + mark + Marked(s[j + 2..], mark)
  {
    var at := s[j..];
    assert at[..2] == "::" && at[2..] == s[j + 2..];
  }

  lemma ReplacePieces(s: string, done: nat, j: nat, mark: string)
    requires done <= j && j + 2 <= |s|
    ensures s[done..][j - done..] == s[j..] && s[done..][..j - done] == s[done..j]
    ensures s[..done] + s[done..j] == s[..j]
    ensures var r := s[..j] + ("::" + mark) + s[j + 2..];
            r[j + 2 + |mark|..] == s[j + 2..] && r[..j + 2 + |mark|] == s[..j] + ("::" + mark)
  {
  }
}
