/** What the patch parser makes of any lines, told without its state. */
module PatchLines {
  import opened Wrappers
  import opened Sequences
  import opened Strings
  import opened Patchset
  import opened PatchRoundTrip

  // ---------------------------------------------------------------- what each line is

  /** A line by its beginning; only a newline inside it, or a chunk header, is judged otherwise. */
  lemma LexedByMark(line: string)
    ensures var body := DropNewline(line);
            '\n' !in body ==>
              && ("--- " <= body ==> Lexed(line) == SrcFile(body[4..]))
              && ("+++ " <= body ==> Lexed(line) == DstFile(body[4..]))
              && (body != "" && body[0] == '-' && !("--- " <= body) ==>
                    Lexed(line) == Content(ChunkLine(Src, body[1..])))
              && (body != "" && body[0] == '+' && !("+++ " <= body) ==>
                    Lexed(line) == Content(ChunkLine(Dst, body[1..])))
              && (body != "" && body[0] == ' ' ==> Lexed(line) == Content(ChunkLine(Both, body[1..])))
              && (body == "" || body[0] !in {'-', '+', ' '} ==>
                    var m := ChunkMatch(line);
                    Lexed(line) == if m.Some? then ChunkStart(m.value.0, m.value.1) else NoMatch)
  {
    hide ChunkMatch, After;
    var body := DropNewline(line);
    if '\n' !in body {
      AfterBody("--- ", line);
      AfterBody("+++ ", line);
      AfterBody("-", line);
      AfterBody("+", line);
      AfterBody(" ", line);
      HeaderMark(line);
    }
  }

  lemma AfterBody(prefix: string, line: string)
    requires prefix != "" && '\n' !in prefix && '\n' !in DropNewline(line)
    ensures var body := DropNewline(line);
            && (prefix <= body <==> prefix <= line)
            && After(prefix, line) == (if prefix <= body then Some(body[|prefix|..]) else None)
            && (prefix <= body ==> body != "" && body[0] == prefix[0])
  {
    var body, n := DropNewline(line), |prefix|;
    if prefix <= line {
      assert line[n - 1] == prefix[n - 1];
      if body != line {
        assert line[|line| - 1] == '\n';
        assert n <= |body|;
        assert prefix == body[..n];
        assert DropNewline(line[n..]) == body[n..];
      } else {
        assert DropNewline(line[n..]) == line[n..];
      }
    }
  }

  lemma HeaderMark(line: string)
    ensures ChunkMatch(line).Some? ==> DropNewline(line) != "" && DropNewline(line)[0] == '@'
  {
    hide ChunkMatch, TakeNumber;
    if ChunkMatch(line).Some? {
      FirstTaken(line);
      BeginsWith("@@ -", line);
    }
  }

  lemma FirstTaken(line: string)
    ensures ChunkMatch(line).Some? ==> TakeNumber("@@ -", line).Some?
  {
    hide TakeNumber;
  }

  lemma BeginsWith(prefix: string, s: string)
    requires TakeNumber(prefix, s).Some? && |prefix| == 4
    ensures |s| > 4 && s[0] == prefix[0]
  {
    assert s[..4] == prefix;
  }

  predicate IsNumeral(d: string) {
    d != "" && forall k :: 0 <= k < |d| ==> IsDigit(d[k])
  }

  /** The form of a chunk header; anything may follow it. */
  ghost predicate HeaderForm(line: string, a: string, b: string, c: string, d: string, rest: string) {
    && IsNumeral(a) && IsNumeral(b) && IsNumeral(c) && IsNumeral(d)
    && line == "@@ -" + (a + ("," + (b + (" +" + (c + ("," + (d + (" @@" + rest))))))))
  }

  lemma TakesWhole(prefix: string, d: string, rest: string)
    requires IsNumeral(d) && rest != "" && !IsDigit(rest[0])
    ensures TakeNumber(prefix, prefix + (d + rest)) == Some((Number(d), rest))
  {
    var s := prefix + (d + rest);
    assert s[|prefix|..] == d + rest;
    DigitsStop(d, rest);
    assert (d + rest)[..|d|] == d && (d + rest)[|d|..] == rest;
  }

  lemma TakenIs(prefix: string, s: string) returns (d: string)
    requires TakeNumber(prefix, s).Some?
    ensures IsNumeral(d) && s == prefix + (d + TakeNumber(prefix, s).value.1)
    ensures TakeNumber(prefix, s).value.0 == Number(d)
  {
    var t := s[|prefix|..];
    d := t[..DigitCount(t)];
    assert s == prefix + t && t == d + t[|d|..];
  }

  /** A line is a chunk header iff it has that form, and then its first and third numbers are the positions. */
  lemma ChunkMatchIs(line: string, a: nat, c: nat)
    ensures ChunkMatch(line) == Some((a, c))
            <==> exists d1, d2, d3, d4, rest ::
                   HeaderForm(line, d1, d2, d3, d4, rest) && Number(d1) == a && Number(d3) == c
  {
    hide TakeNumber, Number;
    if d1, d2, d3, d4, rest :| HeaderForm(line, d1, d2, d3, d4, rest) && Number(d1) == a && Number(d3) == c {
      var r4 := " @@" + rest;
      var r3 := "," + (d4 + r4);
      var r2 := " +" + (d3 + r3);
      var r1 := "," + (d2 + r2);
      assert !IsDigit(r1[0]) && !IsDigit(r2[0]) && !IsDigit(r3[0]) && !IsDigit(r4[0]);
      TakesWhole("@@ -", d1, r1);
      TakesWhole(",", d2, r2);
      TakesWhole(" +", d3, r3);
      TakesWhole(",", d4, r4);
    }
    if ChunkMatch(line) == Some((a, c)) {
      var d1 := TakenIs("@@ -", line);
      var s1 := TakeNumber("@@ -", line).value.1;
      var d2 := TakenIs(",", s1);
      var s2 := TakeNumber(",", s1).value.1;
      var d3 := TakenIs(" +", s2);
      var s3 := TakeNumber(" +", s2).value.1;
      var d4 := TakenIs(",", s3);
      var s4 := TakeNumber(",", s3).value.1;
      assert s4 == " @@" + s4[3..];
      assert HeaderForm(line, d1, d2, d3, d4, s4[3..]);
    }
  }

  // ---------------------------------------------------------------- when the parser fails

  function Tokens(lines: seq<string>): (t: seq<Token>)
    ensures |t| == |lines| && forall k :: 0 <= k < |lines| ==> t[k] == Lexed(lines[k])
  {
    seq(|lines|, k requires 0 <= k < |lines| => Lexed(lines[k]))
  }

  ghost predicate HasFile(tokens: seq<Token>) {
    exists k :: 0 <= k < |tokens| && tokens[k].SrcFile?
  }

  ghost predicate HasChunk(tokens: seq<Token>) {
    exists k :: 0 <= k < |tokens| && tokens[k].ChunkStart?
  }

  /** A line that is none of the kinds, a header before any file, or contents before any chunk. */
  ghost predicate Misplaced(tokens: seq<Token>, k: nat)
    requires k < |tokens|
  {
    || tokens[k].NoMatch?
    || ((tokens[k].DstFile? || tokens[k].ChunkStart?) && !HasFile(tokens[..k]))
    || (tokens[k].Content? && !HasChunk(tokens[..k]))
  }

  // ---------------------------------------------------------------- what it returns

  /** The names of the files: each old name begins a patch, and a new name belongs to the last one. */
  function Files(tokens: seq<Token>): seq<(string, string)> {
    if tokens == [] then []
    else
      var files, n := Files(tokens[..|tokens| - 1]), |tokens| - 1;
      match tokens[n]
      case SrcFile(name) => files + [(name, "")]
      case DstFile(name) => if files == [] then [] else files[|files| - 1 := (files[|files| - 1].0, name)]
      case _ => files
  }

  /** All chunks in the order of their headers, each with the contents up to the next header, files or not. */
  function Chunks(tokens: seq<Token>): seq<Chunk> {
    if tokens == [] then []
    else
      var chunks, n := Chunks(tokens[..|tokens| - 1]), |tokens| - 1;
      match tokens[n]
      case ChunkStart(a, c) => chunks + [Chunk(a, c, [])]
      case Content(line) =>
        if chunks == [] then []
        else
          var last := chunks[|chunks| - 1];
          chunks[|chunks| - 1 := last.(lines := last.lines + [line])]
      case _ => chunks
  }

  /** How many chunk headers follow each old name before the next. */
  function Sizes(tokens: seq<Token>): seq<nat> {
    if tokens == [] then []
    else
      var sizes, n := Sizes(tokens[..|tokens| - 1]), |tokens| - 1;
      match tokens[n]
      case SrcFile(_) => sizes + [0]
      case ChunkStart(_, _) => if sizes == [] then [] else sizes[|sizes| - 1 := sizes[|sizes| - 1] + 1]
      case _ => sizes
  }

  function AllChunks(patches: seq<Patch>): seq<Chunk> {
    if patches == [] then [] else AllChunks(patches[..|patches| - 1]) + patches[|patches| - 1].chunks
  }

  ghost predicate Describes(st: State, tokens: seq<Token>) {
    && |st.patches| == |Files(tokens)| == |Sizes(tokens)|
    && (forall i :: 0 <= i < |st.patches| ==> (st.patches[i].src, st.patches[i].dst) == Files(tokens)[i])
    && (forall i :: 0 <= i < |st.patches| ==> |st.patches[i].chunks| == Sizes(tokens)[i])
    && AllChunks(st.patches) == Chunks(tokens)
    && (st.chunkIn == None ==> Chunks(tokens) == [])
    && (st.chunkIn.Some? ==>
          && st.chunkIn.value < |st.patches| && st.patches[st.chunkIn.value].chunks != []
          && forall i :: st.chunkIn.value < i < |st.patches| ==> st.patches[i].chunks == [])
    && (HasFile(tokens) <==> st.patches != []) && (HasChunk(tokens) <==> st.chunkIn.Some?)
  }

  lemma HasMore(tokens: seq<Token>, token: Token)
    ensures HasFile(tokens + [token]) <==> HasFile(tokens) || token.SrcFile?
    ensures HasChunk(tokens + [token]) <==> HasChunk(tokens) || token.ChunkStart?
  {
    var more := tokens + [token];
    assert more[|tokens|] == token;
    assert forall k :: 0 <= k < |tokens| ==> more[k] == tokens[k];
  }

  lemma {:induction false} NoChunksAfter(patches: seq<Patch>, i: nat)
    requires i <= |patches| && forall j :: i <= j < |patches| ==> patches[j].chunks == []
    ensures AllChunks(patches) == AllChunks(patches[..i])
    decreases |patches|
  {
    if i < |patches| {
      NoChunksAfter(patches[..|patches| - 1], i);
      assert patches[..|patches| - 1][..i] == patches[..i];
    } else {
      assert patches[..i] == patches;
    }
  }

  /** Changing one patch changes its part of the list of all chunks. */
  lemma {:induction false} OnePatchChanged(patches: seq<Patch>, i: nat, patch: Patch)
    requires i < |patches| && forall j :: i < j < |patches| ==> patches[j].chunks == []
    ensures AllChunks(patches) == AllChunks(patches[..i]) + patches[i].chunks
    ensures AllChunks(patches[i := patch]) == AllChunks(patches[..i]) + patch.chunks
  {
    var changed := patches[i := patch];
    NoChunksAfter(patches, i + 1);
    NoChunksAfter(changed, i + 1);
    assert patches[..i + 1][..i] == patches[..i] && changed[..i + 1][..i] == patches[..i];
  }

  lemma StepDescribes(st: State, tokens: seq<Token>, token: Token)
    requires StateOk(st) && Describes(st, tokens)
    ensures Step(st, token).Failed?
            <==> token.NoMatch? || ((token.DstFile? || token.ChunkStart?) && !HasFile(tokens))
                 || (token.Content? && !HasChunk(tokens))
    ensures Step(st, token).Ok? ==> Describes(Step(st, token).value, tokens + [token])
  {
    hide HasFile, HasChunk, AllChunks, Chunks, Files, Sizes;
    HasMore(tokens, token);
    FileParts(tokens, token);
    SizeParts(tokens, token);
    ChunkParts(tokens, token);
    var n := |st.patches| - 1;
    if Step(st, token).Ok? {
      match token
      case SrcFile(name) =>
        OneMorePatch(st.patches, Patch(name, "", []));
      case DstFile(name) =>
        OnePatchChanged(st.patches, n, WithDst(st.patches[n], name));
      case ChunkStart(a, c) =>
        OnePatchChanged(st.patches, n, WithChunk(st.patches[n], Chunk(a, c, [])));
        var l := AllChunks(st.patches[..n]);
        assert l + (st.patches[n].chunks + [Chunk(a, c, [])]) == l + st.patches[n].chunks + [Chunk(a, c, [])];
      case Content(line) =>
        ContentDescribes(st, tokens, line);
    }
  }

  lemma FileParts(tokens: seq<Token>, token: Token)
    ensures var more, files := tokens + [token], Files(tokens);
            Files(more)
            == if token.SrcFile? then files + [(token.name, "")]
               else if token.DstFile? && files != [] then files[|files| - 1 := (files[|files| - 1].0, token.name)]
               else files
  {
    assert (tokens + [token])[..|tokens|] == tokens && (tokens + [token])[|tokens|] == token;
  }

  lemma SizeParts(tokens: seq<Token>, token: Token)
    ensures var more, sizes := tokens + [token], Sizes(tokens);
            Sizes(more)
            == if token.SrcFile? then sizes + [0]
               else if token.ChunkStart? && sizes != [] then sizes[|sizes| - 1 := sizes[|sizes| - 1] + 1]
               else sizes
  {
    assert (tokens + [token])[..|tokens|] == tokens && (tokens + [token])[|tokens|] == token;
  }

  lemma ChunkParts(tokens: seq<Token>, token: Token)
    ensures var more, chunks := tokens + [token], Chunks(tokens);
            && (token.ChunkStart? ==> Chunks(more) == chunks + [Chunk(token.srcPos, token.dstPos, [])])
            && (token.SrcFile? || token.DstFile? || token.NoMatch? ==> Chunks(more) == chunks)
            && (token.Content? && chunks != [] ==>
                  var m := |chunks| - 1;
                  Chunks(more) == chunks[m := chunks[m].(lines := chunks[m].lines + [token.line])])
  {
    assert (tokens + [token])[..|tokens|] == tokens;
  }

  lemma OneMorePatch(patches: seq<Patch>, patch: Patch)
    requires patch.chunks == []
    ensures AllChunks(patches + [patch]) == AllChunks(patches)
  {
    assert (patches + [patch])[..|patches|] == patches;
  }

  lemma ContentDescribes(st: State, tokens: seq<Token>, line: ChunkLine)
    requires StateOk(st) && Describes(st, tokens) && st.chunkIn.Some?
    ensures AllChunks(Step(st, Content(line)).value.patches) == Chunks(tokens + [Content(line)])
  {
    hide HasFile, HasChunk, Files, Sizes, Chunks, AllChunks;
    var i := st.chunkIn.value;
    var patch := st.patches[i];
    ChunkParts(tokens, Content(line));
    OnePatchChanged(st.patches, i, WithLine(patch, line));
    LastOfTwo(AllChunks(st.patches[..i]), patch.chunks, line);
  }

  lemma LastOfTwo(l: seq<Chunk>, c: seq<Chunk>, line: ChunkLine)
    requires c != []
    ensures var m, n := |c| - 1, |l + c| - 1;
            var longer := c[m].(lines := c[m].lines + [line]);
            (l + c)[n] == c[m] && (l + c)[n := longer] == l + c[m := longer]
  {
  }

  lemma {:induction false} StepsDescribe(lines: seq<string>)
    ensures Steps(START, lines).Failed? <==> exists k: nat :: k < |lines| && Misplaced(Tokens(lines), k)
    ensures Steps(START, lines).Ok? ==> Describes(Steps(START, lines).value, Tokens(lines))
  {
    hide Step, Lexed, Describes, Misplaced;
    if lines == [] {
      NothingDescribed();
    } else {
      var n := |lines| - 1;
      var init, line := lines[..n], lines[n];
      assert lines == init + [line] && Tokens(lines) == Tokens(init) + [Lexed(line)];
      StepsDescribe(init);
      forall k: nat | k < n ensures Misplaced(Tokens(lines), k) <==> Misplaced(Tokens(init), k) {
        SamePrefix(Tokens(init), Lexed(line), k);
      }
      if Steps(START, init).Ok? {
        var st := Steps(START, init).value;
        StepsConcat(START, init, [line]);
        LastStep(st, line);
        StepDescribes(st, Tokens(init), Lexed(line));
        LastMisplaced(Tokens(init), Lexed(line));
      } else {
        StepsFail(START, init, [line]);
      }
    }
  }

  lemma NothingDescribed()
    ensures Describes(START, Tokens([]))
  {
  }

  lemma SamePrefix(tokens: seq<Token>, token: Token, k: nat)
    requires k < |tokens|
    ensures Misplaced(tokens + [token], k) <==> Misplaced(tokens, k)
  {
    assert (tokens + [token])[..k] == tokens[..k];
  }

  lemma LastMisplaced(tokens: seq<Token>, token: Token)
    ensures Misplaced(tokens + [token], |tokens|)
            <==> token.NoMatch? || ((token.DstFile? || token.ChunkStart?) && !HasFile(tokens))
                 || (token.Content? && !HasChunk(tokens))
  {
    assert (tokens + [token])[..|tokens|] == tokens;
  }

  lemma LastStep(st: State, line: string)
    requires StateOk(st)
    ensures Steps(st, [line]) == Step(st, Lexed(line))
  {
    hide Step, Lexed;
    var next := Step(st, Lexed(line));
    assert [line][1..] == [];
    assert next.Ok? ==> Steps(next.value, []) == next;
  }

  lemma {:induction false} StepsFail(st: State, a: seq<string>, b: seq<string>)
    requires StateOk(st) && Steps(st, a).Failed?
    ensures Steps(st, a + b).Failed?
    decreases |a|
  {
    hide Step, Lexed;
    if a != [] {
      assert (a + b)[0] == a[0] && (a + b)[1..] == a[1..] + b;
      var next := Step(st, Lexed(a[0]));
      if next.Ok? {
        StepsFail(next.value, a[1..], b);
      }
    }
  }

  /**
   * The parser fails iff some line is misplaced. Otherwise its patches have the names and sizes that the headers
   * give, and all their chunks together are those of the chunk headers, each with the contents up to the next one.
   */
  lemma ParsedIs(lines: seq<string>)
    ensures Parsed(lines).Failed? <==> exists k: nat :: k < |lines| && Misplaced(Tokens(lines), k)
    ensures Parsed(lines).Ok? ==>
              var patches, tokens := Parsed(lines).value, Tokens(lines);
              && |patches| == |Files(tokens)| == |Sizes(tokens)| && AllChunks(patches) == Chunks(tokens)
              && forall i :: 0 <= i < |patches| ==>
                   (patches[i].src, patches[i].dst) == Files(tokens)[i] && |patches[i].chunks| == Sizes(tokens)[i]
  {
    hide Steps, Misplaced, Tokens;
    StepsDescribe(lines);
  }
}
