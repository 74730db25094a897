/** The patch objects, which the parser fills in place, and the methods that write them. */
module PatchObjects {
  import opened Wrappers
  import opened Patchset

  /** A text file opened for writing. */
  class Output {
    var text: string

    constructor ()
      ensures text == ""
    {
      text := "";
    }

    method Write(s: string)
      modifies this
      ensures text == old(text) + s
    {
      text := text + s;
    }
  }

  predicate LinesTyped(lines: seq<ChunkLine>) {
    forall k :: 0 <= k < |lines| ==> lines[k].kind != Untyped
  }

  predicate ChunksTyped(chunks: seq<Chunk>) {
    forall k :: 0 <= k < |chunks| ==> LinesTyped(chunks[k].lines)
  }

  lemma Regroup(a: string, b: string, c: string)
    ensures a + b + c == a + (b + c)
  {
  }

  lemma NoLinesText()
    ensures LinesText([]) == ""
  {
  }

  lemma LinesTextNext(lines: seq<ChunkLine>, k: nat)
    requires k < |lines|
    ensures LinesText(lines[..k + 1]) == LinesText(lines[..k]) + LineText(lines[k])
  {
    assert lines[..k + 1][..k] == lines[..k];
  }

  lemma NoChunksText()
    ensures ChunksText([]) == ""
  {
  }

  lemma ChunksTextNext(chunks: seq<Chunk>, k: nat)
    requires k < |chunks|
    ensures ChunksText(chunks[..k + 1]) == ChunksText(chunks[..k]) + ChunkText(chunks[k])
  {
    assert chunks[..k + 1][..k] == chunks[..k];
  }

  lemma NamesWritten(before: string, src: string, dst: string)
    ensures before + ("--- " + src + "\n") + ("+++ " + dst + "\n")
            == before + ("--- " + src + "\n" + "+++ " + dst + "\n")
  {
  }

  class ChunkObject {
    const srcPos: int
    const dstPos: int
    var lines: seq<ChunkLine>

    constructor (srcPos: int, dstPos: int)
      ensures View() == Chunk(srcPos, dstPos, [])
    {
      this.srcPos, this.dstPos, this.lines := srcPos, dstPos, [];
    }

    function View(): Chunk
      reads this
    {
      Chunk(srcPos, dstPos, lines)
    }

    method AddLine(line: ChunkLine)
      modifies this
      ensures View() == Chunk(srcPos, dstPos, old(lines) + [line])
    {
      lines := lines + [line];
    }

    method LengthInSrc() returns (n: nat)
      ensures n == SrcLen(lines)
    {
      n := 0;
      for k := 0 to |lines|
        invariant n == SrcLen(lines[..k])
      {
        assert lines[..k + 1][..k] == lines[..k];
        if InSrc(lines[k]) {
          n := n + 1;
        }
      }
      assert lines[..|lines|] == lines;
    }

    method LengthInDst() returns (n: nat)
      ensures n == DstLen(lines)
    {
      n := 0;
      for k := 0 to |lines|
        invariant n == DstLen(lines[..k])
      {
        assert lines[..k + 1][..k] == lines[..k];
        if InDst(lines[k]) {
          n := n + 1;
        }
      }
      assert lines[..|lines|] == lines;
    }

    /** Writes the header and the lines; `ok` is false when a line that was never set raises the exception. */
    method Write(f: Output) returns (ok: bool)
      modifies f
      ensures ok <==> LinesTyped(lines)
      ensures ok ==> f.text == old(f.text) + ChunkText(View())
      ensures ok ==> IsChunkText(f.text[|old(f.text)|..], srcPos, dstPos, lines)
    {
      hide Printed, LinesText, LineText, SrcLen, DstLen;
      var n := LengthInSrc();
      var m := LengthInDst();
      f.Write("@@ -" + Printed(srcPos) + "," + Printed(n) + " +" + Printed(dstPos) + "," + Printed(m) + " @@\n");
      ghost var start := old(f.text) + ChunkHeader(View());
      NoLinesText();
      for k := 0 to |lines|
        invariant LinesTyped(lines[..k])
        invariant f.text == start + LinesText(lines[..k])
      {
        if lines[k].kind == Untyped {
          return false;
        }
        f.Write(LineText(lines[k]));
        LinesTextNext(lines, k);
        Regroup(start, LinesText(lines[..k]), LineText(lines[k]));
      }
      assert lines[..|lines|] == lines;
      Regroup(old(f.text), ChunkHeader(View()), LinesText(lines));
      hide ChunkText, IsChunkText;
      ChunkTextCounts(View());
      assert f.text[|old(f.text)|..] == ChunkText(View());
      return true;
    }
  }

  class PatchObject {
    var src: string
    var dst: string
    var chunks: seq<ChunkObject>

    constructor ()
      ensures View() == Patch("", "", [])
    {
      src, dst, chunks := "", "", [];
    }

    ghost function View(): (v: Patch)
      reads this, chunks
      ensures v.src == src && v.dst == dst && |v.chunks| == |chunks|
      ensures forall k :: 0 <= k < |chunks| ==> v.chunks[k] == chunks[k].View()
    {
      Patch(src, dst, seq(|chunks|, k requires 0 <= k < |chunks| reads this, chunks => chunks[k].View()))
    }

    method SetSrc(name: string)
      modifies this
      ensures src == name && dst == old(dst) && chunks == old(chunks)
    {
      src := name;
    }

    method SetDst(name: string)
      modifies this
      ensures src == old(src) && dst == name && chunks == old(chunks)
    {
      dst := name;
    }

    method AddChunk(chunk: ChunkObject)
      modifies this
      ensures src == old(src) && dst == old(dst) && chunks == old(chunks) + [chunk]
    {
      chunks := chunks + [chunk];
    }

    method Write(f: Output) returns (ok: bool)
      modifies f
      ensures ok <==> ChunksTyped(View().chunks)
      ensures ok ==> f.text == old(f.text) + PatchText(View())
    {
      hide ChunksText, ChunkText, IsChunkText, LinesTyped, View;
      f.Write("--- " + src + "\n");
      f.Write("+++ " + dst + "\n");
      ghost var views := View().chunks;
      ghost var names := "--- " + src + "\n" + "+++ " + dst + "\n";
      NamesWritten(old(f.text), src, dst);
      NoChunksText();
      for k := 0 to |chunks|
        invariant ChunksTyped(views[..k])
        invariant f.text == old(f.text) + names + ChunksText(views[..k])
      {
        assert views[k] == chunks[k].View();
        ChunksTextNext(views, k);
        Regroup(old(f.text) + names, ChunksText(views[..k]), ChunkText(views[k]));
        var written := chunks[k].Write(f);
        if !written {
          return false;
        }
      }
      assert views[..|views|] == views;
      Regroup(old(f.text), names, ChunksText(views));
      return true;
    }
  }

  // ---------------------------------------------------------------- parsing

  ghost function ChunkLists(patches: seq<PatchObject>): (lists: seq<seq<ChunkObject>>)
    reads patches
    ensures |lists| == |patches| && forall i :: 0 <= i < |patches| ==> lists[i] == patches[i].chunks
  {
    seq(|patches|, i requires 0 <= i < |patches| reads patches => patches[i].chunks)
  }

  ghost predicate SeparateLists(lists: seq<seq<ChunkObject>>) {
    forall i, a, j, b :: 0 <= i < |lists| && 0 <= a < |lists[i]| && 0 <= j < |lists| && 0 <= b < |lists[j]| ==>
      lists[i][a] == lists[j][b] ==> i == j && a == b
  }

  /** No object occurs twice. */
  ghost predicate Separate(patches: seq<PatchObject>)
    reads patches
  {
    && (forall i, j :: 0 <= i < j < |patches| ==> patches[i] != patches[j])
    && SeparateLists(ChunkLists(patches))
  }

  lemma OneChunkMore(lists: seq<seq<ChunkObject>>, n: nat, added: ChunkObject)
    requires SeparateLists(lists) && n < |lists| && forall i :: 0 <= i < |lists| ==> added !in lists[i]
    ensures SeparateLists(lists[n := lists[n] + [added]])
  {
  }

  ghost function ChunksOf(patches: seq<PatchObject>): (all: set<ChunkObject>)
    reads patches
    ensures forall i, a :: 0 <= i < |patches| && 0 <= a < |patches[i].chunks| ==> patches[i].chunks[a] in all
  {
    set i, a | 0 <= i < |patches| && 0 <= a < |patches[i].chunks| :: patches[i].chunks[a]
  }

  /** The objects look like the values. */
  ghost predicate Shows(patches: seq<PatchObject>, views: seq<Patch>)
    reads patches, ChunksOf(patches)
  {
    |patches| == |views| && forall i :: 0 <= i < |patches| ==> patches[i].View() == views[i]
  }

  /** The two variables refer to the last patch, and to the last chunk that was begun. */
  ghost predicate Mirrors(patches: seq<PatchObject>, patch: PatchObject?, chunk: ChunkObject?, st: State)
    reads patches, ChunksOf(patches)
  {
    && Separate(patches) && Shows(patches, st.patches) && StateOk(st)
    && (patch == null <==> patches == [])
    && (patch != null ==> patch == patches[|patches| - 1])
    && (chunk == null <==> st.chunkIn == None)
    && (chunk != null ==> var c := patches[st.chunkIn.value].chunks; c != [] && chunk == c[|c| - 1])
  }

  /** A new patch without chunks at the end. */
  lemma AppendedMirrors(patches: seq<PatchObject>, last: PatchObject?, chunk: ChunkObject?, patch: PatchObject,
                        st: State)
    requires Mirrors(patches, last, chunk, st) && patch !in patches && patch.dst == "" && patch.chunks == []
    ensures Mirrors(patches + [patch], patch, chunk, Step(st, SrcFile(patch.src)).value)
  {
    hide SeparateLists, ChunksOf;
    var all := patches + [patch];
    assert patch.View() == Patch(patch.src, "", []);
    assert forall i :: 0 <= i < |patches| ==> all[i] == patches[i];
    AppendedSeparate(patches, patch);
  }

  lemma AppendedSeparate(patches: seq<PatchObject>, patch: PatchObject)
    requires Separate(patches) && patch !in patches && patch.chunks == []
    ensures Separate(patches + [patch])
  {
    assert ChunkLists(patches + [patch]) == ChunkLists(patches) + [[]];
  }

  method BeginPatch(patches: seq<PatchObject>, ghost last: PatchObject?, ghost chunk: ChunkObject?, name: string,
                    ghost st: State)
    returns (all: seq<PatchObject>, patch: PatchObject)
    requires Mirrors(patches, last, chunk, st)
    ensures fresh(patch) && all == patches + [patch]
    ensures Mirrors(all, patch, chunk, Step(st, SrcFile(name)).value)
  {
    hide Step;
    patch := new PatchObject();
    patch.SetSrc(name);
    AppendedMirrors(patches, last, chunk, patch, st);
    all := patches + [patch];
  }

  method SetDstOf(patches: seq<PatchObject>, patch: PatchObject, chunk: ChunkObject?, name: string, ghost st: State)
    requires Mirrors(patches, patch, chunk, st)
    modifies patch
    ensures Step(st, DstFile(name)).Ok? && Mirrors(patches, patch, chunk, Step(st, DstFile(name)).value)
    ensures patch.chunks == old(patch.chunks)
  {
    hide SeparateLists, ChunksOf, Step;
    ghost var lists, view := ChunkLists(patches), patch.View();
    patch.SetDst(name);
    assert ChunkLists(patches) == lists;
    assert patch.View() == WithDst(view, name);
    assert forall i :: 0 <= i < |patches| - 1 ==> patches[i] != patch;
    assert forall i :: 0 <= i < |patches| - 1 ==> patches[i].View() == st.patches[i];
    LastDstReplaced(patches, patch, chunk, name, st);
  }

  /** The last patch has got another name: what the heap looks like then. */
  lemma LastDstReplaced(patches: seq<PatchObject>, patch: PatchObject, chunk: ChunkObject?, name: string, st: State)
    requires StateOk(st) && |patches| == |st.patches| > 0 && patch == patches[|patches| - 1] && Separate(patches)
    requires forall i :: 0 <= i < |patches| - 1 ==> patches[i].View() == st.patches[i]
    requires patch.View() == WithDst(st.patches[|patches| - 1], name)
    requires chunk == null <==> st.chunkIn == None
    requires chunk != null ==> var c := patches[st.chunkIn.value].chunks; c != [] && chunk == c[|c| - 1]
    ensures var step := Step(st, DstFile(name)); step.Ok? && Mirrors(patches, patch, chunk, step.value)
  {
    hide SeparateLists, ChunksOf;
  }

  method AddChunkTo(patches: seq<PatchObject>, patch: PatchObject, ghost chunk: ChunkObject?, srcPos: nat, dstPos: nat,
                    ghost st: State) returns (added: ChunkObject)
    requires Mirrors(patches, patch, chunk, st)
    modifies patch
    ensures Step(st, ChunkStart(srcPos, dstPos)).Ok?
    ensures Mirrors(patches, patch, added, Step(st, ChunkStart(srcPos, dstPos)).value)
    ensures fresh(added) && patch.chunks == old(patch.chunks) + [added]
  {
    hide SeparateLists, Step, ChunksOf;
    ghost var lists, n := ChunkLists(patches), |patches| - 1;
    ghost var view := patch.View();
    added := new ChunkObject(srcPos, dstPos);
    OneChunkMore(lists, n, added);
    patch.AddChunk(added);
    assert patch.View() == WithChunk(view, Chunk(srcPos, dstPos, []));
    assert forall i :: 0 <= i < n ==> patches[i] != patch;
    assert forall i :: 0 <= i < n ==> patches[i].View() == st.patches[i];
    LastChunkAdded(patches, patch, added, st, lists);
  }

  /** The last patch has got a new chunk: what the heap looks like then. */
  lemma LastChunkAdded(patches: seq<PatchObject>, patch: PatchObject, added: ChunkObject, st: State,
                       lists: seq<seq<ChunkObject>>)
    requires StateOk(st) && |patches| == |st.patches| == |lists| > 0 && patch == patches[|patches| - 1]
    requires forall i, j :: 0 <= i < j < |patches| ==> patches[i] != patches[j]
    requires forall i :: 0 <= i < |patches| - 1 ==> patches[i].View() == st.patches[i] && patches[i].chunks == lists[i]
    requires patch.chunks == lists[|lists| - 1] + [added]
    requires patch.View() == WithChunk(st.patches[|patches| - 1], Chunk(added.srcPos, added.dstPos, []))
    requires SeparateLists(lists[|lists| - 1 := lists[|lists| - 1] + [added]]) && added.srcPos >= 0 && added.dstPos >= 0
    ensures var step := Step(st, ChunkStart(added.srcPos, added.dstPos));
            step.Ok? && Mirrors(patches, patch, added, step.value)
  {
    hide SeparateLists;
    assert ChunkLists(patches) == lists[|lists| - 1 := lists[|lists| - 1] + [added]];
  }

  method AddLineTo(patches: seq<PatchObject>, ghost patch: PatchObject?, chunk: ChunkObject, line: ChunkLine,
                   ghost st: State)
    requires Mirrors(patches, patch, chunk, st)
    modifies chunk
    ensures Step(st, Content(line)).Ok? && Mirrors(patches, patch, chunk, Step(st, Content(line)).value)
  {
    chunk.AddLine(line);
    ghost var i := st.chunkIn.value;
    assert patches[i].View() == WithLine(st.patches[i], line);
  }

  /** One round of the loop; an exception when a header comes without a patch or content without a chunk. */
  method ParseLine(patches: seq<PatchObject>, patch: PatchObject?, chunk: ChunkObject?, line: string, ghost st: State)
    returns (ok: bool, all: seq<PatchObject>, current: PatchObject?, begun: ChunkObject?)
    requires Mirrors(patches, patch, chunk, st)
    modifies if patch == null then {} else {patch}, if chunk == null then {} else {chunk}
    ensures StateOk(st) && (ok <==> Step(st, Lexed(line)).Ok?)
    ensures ok ==> Mirrors(all, current, begun, Step(st, Lexed(line)).value)
    ensures ok ==> current == patch || (current != null && fresh(current))
    ensures ok ==> begun == chunk || (begun != null && fresh(begun))
    ensures ok ==> all == patches || (current != null && fresh(current) && all == patches + [current])
  {
    hide After, ChunkMatch, Mirrors, Separate, Shows, Step;
    MirrorsFacts(patches, patch, chunk, st);
    WhenStepFails(st, Lexed(line));
    all, current, begun := patches, patch, chunk;
    var name := After("--- ", line);
    if name.Some? {
      all, current := BeginPatch(patches, patch, chunk, name.value, st);
      return true, all, current, begun;
    }
    name := After("+++ ", line);
    if name.Some? {
      if patch == null {
        return false, all, current, begun;
      }
      SetDstOf(patches, patch, chunk, name.value, st);
      return true, all, current, begun;
    }
    var start := ChunkMatch(line);
    if start.Some? {
      if patch == null {
        return false, all, current, begun;
      }
      begun := AddChunkTo(patches, patch, chunk, start.value.0, start.value.1, st);
      return true, all, current, begun;
    }
    var kind := Untyped;
    name := After("-", line);
    if name.Some? {
      kind := Src;
    } else {
      name := After("+", line);
      if name.Some? {
        kind := Dst;
      } else {
        name := After(" ", line);
        if name.Some? {
          kind := Both;
        }
      }
    }
    if kind == Untyped || chunk == null {
      return false, all, current, begun;
    }
    AddLineTo(patches, patch, chunk, ChunkLine(kind, name.value), st);
    return true, all, current, begun;
  }

  lemma WhenStepFails(st: State, token: Token)
    requires StateOk(st)
    ensures Step(st, token).Failed?
            <==> token.NoMatch? || (token.Content? && st.chunkIn == None)
                 || ((token.DstFile? || token.ChunkStart?) && st.patches == [])
  {
  }

  /** Parses lines into fresh objects that look like the parsed values and share no chunk. */
  method ParsePatchset(lines: seq<string>) returns (ok: bool, patchset: seq<PatchObject>)
    ensures ok <==> Parsed(lines).Ok?
    ensures ok ==> Separate(patchset) && Shows(patchset, Parsed(lines).value)
    ensures forall i :: 0 <= i < |patchset| ==> fresh(patchset[i])
  {
    hide Lexed, Mirrors, Separate, Shows, Step, Steps, StateOk;
    patchset := [];
    var currentPatch: PatchObject? := null;
    var currentChunk: ChunkObject? := null;
    ghost var st := START;
    var n := 0;
    StartMirrors();
    while n < |lines|
      invariant n <= |lines|
      invariant Mirrors(patchset, currentPatch, currentChunk, st)
      invariant StateOk(st) && Steps(START, lines) == Steps(st, lines[n..])
      invariant forall i :: 0 <= i < |patchset| ==> fresh(patchset[i])
      invariant currentPatch != null ==> fresh(currentPatch)
      invariant currentChunk != null ==> fresh(currentChunk)
    {
      StepsNext(st, lines, n);
      var line := lines[n];
      ghost var next := Step(st, Lexed(line));
      var parsed, all, patch, chunk := ParseLine(patchset, currentPatch, currentChunk, line, st);
      if !parsed {
        return false, patchset;
      }
      patchset, currentPatch, currentChunk := all, patch, chunk;
      st := next.value;
      n := n + 1;
    }
    MirrorsFacts(patchset, currentPatch, currentChunk, st);
    NoLinesLeft(st, lines[n..]);
    return true, patchset;
  }

  lemma StartMirrors()
    ensures Mirrors([], null, null, START) && StateOk(START)
  {
  }

  lemma NoLinesLeft(st: State, lines: seq<string>)
    requires StateOk(st) && lines == []
    ensures Steps(st, lines) == Ok(st)
  {
  }

  lemma StepsNext(st: State, lines: seq<string>, n: nat)
    requires StateOk(st) && n < |lines|
    ensures var next := Step(st, Lexed(lines[n]));
            Steps(st, lines[n..]) == if next.Failed? then Failed else Steps(next.value, lines[n + 1..])
  {
    assert lines[n..][1..] == lines[n + 1..];
  }

  lemma MirrorsFacts(patches: seq<PatchObject>, patch: PatchObject?, chunk: ChunkObject?, st: State)
    requires Mirrors(patches, patch, chunk, st)
    ensures StateOk(st) && Separate(patches) && Shows(patches, st.patches)
    ensures patch == null <==> st.patches == []
    ensures chunk == null <==> st.chunkIn == None
    ensures patch == null <==> patches == []
  {
  }
}
