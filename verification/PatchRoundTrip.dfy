/** Writing a patch set and parsing what was written. */
module PatchRoundTrip {
  import opened Wrappers
  import opened Sequences
  import opened Strings
  import opened Patchset

  // ---------------------------------------------------------------- which patch sets can be read back

  ghost predicate OneLine(s: string) {
    '\n' !in s
  }

  /** A removed line that starts with "-- " or an added one that starts with "++ " would look like a file name. */
  ghost predicate LineOk(line: ChunkLine) {
    && line.kind != Untyped && OneLine(line.text)
    && (line.kind == Src ==> !("-- " <= line.text))
    && (line.kind == Dst ==> !("++ " <= line.text))
  }

  ghost predicate LinesOk(lines: seq<ChunkLine>) {
    forall k :: 0 <= k < |lines| ==> LineOk(lines[k])
  }

  ghost predicate ChunkOk(chunk: Chunk) {
    chunk.srcPos >= 0 && chunk.dstPos >= 0 && LinesOk(chunk.lines)
  }

  ghost predicate ChunksOk(chunks: seq<Chunk>) {
    forall k :: 0 <= k < |chunks| ==> ChunkOk(chunks[k])
  }

  ghost predicate PatchOk(patch: Patch) {
    OneLine(patch.src) && OneLine(patch.dst) && ChunksOk(patch.chunks)
  }

  ghost predicate Printable(patches: seq<Patch>) {
    forall k :: 0 <= k < |patches| ==> PatchOk(patches[k])
  }

  // ---------------------------------------------------------------- reading text

  function Read(st: State, text: string): (r: Result<State>)
    requires StateOk(st)
    ensures r.Ok? ==> StateOk(r.value)
  {
    Steps(st, SplitLines(text))
  }

  ghost predicate Ended(text: string) {
    text == [] || text[|text| - 1] == '\n'
  }

  lemma NoLines()
    ensures SplitLines([]) == []
  {
  }

  lemma FirstLine(text: string, k: nat)
    requires IndexOf(text, '\n') == k < |text|
    ensures SplitLines(text) == [text[..k + 1]] + SplitLines(text[k + 1..])
  {
  }

  lemma {:induction false} SplitConcat(a: string, b: string)
    requires Ended(a)
    ensures SplitLines(a + b) == SplitLines(a) + SplitLines(b)
    decreases |a|
  {
    hide SplitLines;
    if a == [] {
      NoLines();
      assert a + b == b;
    } else {
      var k := IndexOf(a, '\n');
      SplitConcat(a[k + 1..], b);
      IndexIs(a + b, '\n', k);
      FirstLine(a, k);
      FirstLine(a + b, k);
      assert (a + b)[..k + 1] == a[..k + 1];
      assert (a + b)[k + 1..] == a[k + 1..] + b;
    }
  }

  lemma {:induction false} StepsConcat(st: State, a: seq<string>, b: seq<string>)
    requires StateOk(st) && Steps(st, a).Ok?
    ensures Steps(st, a + b) == Steps(Steps(st, a).value, b)
    decreases |a|
  {
    hide Step, Lexed;
    if a == [] {
      assert a + b == b;
    } else {
      StepsConcat(Step(st, Lexed(a[0])).value, a[1..], b);
      assert (a + b)[0] == a[0] && (a + b)[1..] == a[1..] + b;
    }
  }

  lemma ReadConcat(st: State, a: string, b: string)
    requires StateOk(st) && Ended(a) && Read(st, a).Ok?
    ensures Read(st, a + b) == Read(Read(st, a).value, b)
  {
    hide Steps, StateOk;
    SplitConcat(a, b);
    StepsConcat(st, SplitLines(a), SplitLines(b));
  }

  lemma ReadNothing(st: State)
    requires StateOk(st)
    ensures Read(st, []) == Ok(st)
  {
    assert SplitLines([]) == [];
  }

  lemma ReadLine(st: State, line: string)
    requires StateOk(st) && OneLine(line)
    ensures Read(st, line + "\n") == Step(st, Lexed(line + "\n"))
  {
    hide Step, Lexed;
    var text := line + "\n";
    IndexIs(text, '\n', |line|);
    assert text[..|line| + 1] == text && text[|line| + 1..] == [];
    assert SplitLines(text) == [text] + SplitLines([]);
    assert SplitLines([]) == [];
    var next := Step(st, Lexed(text));
    assert next.Ok? ==> Steps(next.value, []) == next;
  }

  // ---------------------------------------------------------------- each written line is recognized

  lemma AfterReadsBack(prefix: string, text: string)
    requires OneLine(text)
    ensures After(prefix, prefix + text + "\n") == Some(text)
  {
    assert (prefix + text + "\n")[|prefix|..] == text + "\n";
  }

  lemma SrcFileLexed(name: string)
    requires OneLine(name)
    ensures Lexed("--- " + name + "\n") == SrcFile(name)
  {
    AfterReadsBack("--- ", name);
  }

  lemma DstFileLexed(name: string)
    requires OneLine(name)
    ensures Lexed("+++ " + name + "\n") == DstFile(name)
  {
    AfterReadsBack("+++ ", name);
    assert ("+++ " + name + "\n")[0] == '+';
  }

  lemma LineLexed(line: ChunkLine)
    requires LineOk(line)
    ensures Lexed(LineText(line)) == Content(line)
  {
    hide ChunkMatch;
    AfterReadsBack(Mark(line.kind), line.text);
    var text := LineText(line);
    assert text[0] == Mark(line.kind)[0] && text[1..] == line.text + "\n";
    Lookalike("--- ", text);
    Lookalike("+++ ", text);
    NotHeader(text);
  }

  lemma NotHeader(text: string)
    requires text == [] || text[0] != '@'
    ensures ChunkMatch(text) == None
  {
    assert "@@ -"[0] == '@';
  }

  /** A written line is taken for a file name only if its text starts with the rest of the mark. */
  lemma Lookalike(prefix: string, text: string)
    requires |prefix| == 4 && prefix[3] != '\n' && text != []
    ensures prefix <= text ==> prefix[0] == text[0] && prefix[1..] <= text[1..]
    ensures prefix <= text && text[|text| - 1] == '\n' ==> prefix[1..] <= text[1..|text| - 1]
  {
    if prefix <= text && text[|text| - 1] == '\n' {
      assert text[3] == prefix[3];
      assert text[1..|text| - 1][..3] == prefix[1..];
    }
  }

  lemma {:induction false} DigitsStop(digits: string, rest: string)
    requires forall k :: 0 <= k < |digits| ==> IsDigit(digits[k])
    requires rest != [] && !IsDigit(rest[0])
    ensures DigitCount(digits + rest) == |digits|
  {
    if digits == [] {
      assert digits + rest == rest;
    } else {
      DigitsStop(digits[1..], rest);
      assert (digits + rest)[1..] == digits[1..] + rest;
    }
  }

  lemma TakesNumber(prefix: string, n: nat, rest: string)
    requires rest != [] && !IsDigit(rest[0])
    ensures TakeNumber(prefix, prefix + Decimal(n) + rest) == Some((n, rest))
  {
    var s := prefix + Decimal(n) + rest;
    assert s[|prefix|..] == Decimal(n) + rest;
    DigitsStop(Decimal(n), rest);
    assert (Decimal(n) + rest)[..|Decimal(n)|] == Decimal(n) && (Decimal(n) + rest)[|Decimal(n)|..] == rest;
    NumberOfDecimal(n);
  }

  lemma HeaderMatches(chunk: Chunk)
    requires chunk.srcPos >= 0 && chunk.dstPos >= 0
    ensures ChunkMatch(ChunkHeader(chunk)) == Some((chunk.srcPos, chunk.dstPos))
  {
    hide Decimal, SrcLen, DstLen, TakeNumber;
    var rest4 := " @@\n";
    var rest3 := "," + Decimal(DstLen(chunk.lines)) + rest4;
    var rest2 := " +" + Decimal(chunk.dstPos) + rest3;
    var rest1 := "," + Decimal(SrcLen(chunk.lines)) + rest2;
    assert ChunkHeader(chunk) == "@@ -" + Decimal(chunk.srcPos) + rest1;
    TakesNumber("@@ -", chunk.srcPos, rest1);
    TakesNumber(",", SrcLen(chunk.lines), rest2);
    TakesNumber(" +", chunk.dstPos, rest3);
    TakesNumber(",", DstLen(chunk.lines), rest4);
  }

  lemma HeaderLexed(chunk: Chunk)
    requires chunk.srcPos >= 0 && chunk.dstPos >= 0
    ensures Lexed(ChunkHeader(chunk)) == ChunkStart(chunk.srcPos, chunk.dstPos)
  {
    hide ChunkMatch, Decimal;
    HeaderMatches(chunk);
    assert ChunkHeader(chunk)[0] == '@';
  }

  lemma HeaderIsLine(chunk: Chunk)
    requires chunk.srcPos >= 0 && chunk.dstPos >= 0
    ensures exists line :: OneLine(line) && ChunkHeader(chunk) == line + "\n"
  {
    hide Decimal, SrcLen, DstLen, OneLine;
    var a, b := Decimal(chunk.srcPos), Decimal(SrcLen(chunk.lines));
    var c, d := Decimal(chunk.dstPos), Decimal(DstLen(chunk.lines));
    DecimalIsOneLine(chunk.srcPos);
    DecimalIsOneLine(SrcLen(chunk.lines));
    DecimalIsOneLine(chunk.dstPos);
    DecimalIsOneLine(DstLen(chunk.lines));
    StartIsOneLine();
    PositionsAreOneLine("@@ -", a, b);
    PositionsAreOneLine("@@ -" + a + "," + b + " +", c, d);
    var front := "@@ -" + a + "," + b + " +" + c + "," + d;
    assert ChunkHeader(chunk) == front + " @@\n";
    HeaderEnds(front);
  }

  lemma StartIsOneLine()
    ensures OneLine("@@ -")
  {
  }

  lemma PositionsAreOneLine(front: string, a: string, b: string)
    requires OneLine(front) && OneLine(a) && OneLine(b)
    ensures OneLine(front + a + "," + b) && OneLine(front + a + "," + b + " +")
  {
  }

  lemma HeaderEnds(front: string)
    requires OneLine(front)
    ensures OneLine(front + " @@") && front + " @@\n" == front + " @@" + "\n"
  {
  }

  lemma DecimalIsOneLine(n: nat)
    ensures OneLine(Decimal(n))
  {
    hide Decimal;
    assert !IsDigit('\n');
  }

  // ---------------------------------------------------------------- reading what was written

  /** The state when a patch with these chunks has been read after others. */
  function Reading(before: State, patch: Patch): (st: State)
    requires StateOk(before)
    ensures StateOk(st)
  {
    State(before.patches + [patch], if patch.chunks == [] then before.chunkIn else Some(|before.patches|))
  }

  lemma {:induction false} LinesRead(before: State, patch: Patch, chunk: Chunk, lines: seq<ChunkLine>)
    requires StateOk(before) && LinesOk(lines) && chunk.lines == []
    ensures Ended(LinesText(lines))
    ensures Read(Reading(before, WithChunk(patch, chunk)), LinesText(lines))
            == Ok(Reading(before, WithChunk(patch, chunk.(lines := lines))))
  {
    hide Lexed, Read, Step, Reading, LineOk, WithChunk;
    var st := Reading(before, WithChunk(patch, chunk));
    if lines == [] {
      ReadNothing(st);
      assert chunk.(lines := lines) == chunk;
    } else {
      var init, line := lines[..|lines| - 1], lines[|lines| - 1];
      LinesRead(before, patch, chunk, init);
      ReadConcat(st, LinesText(init), LineText(line));
      LineLexed(line);
      TextIsLine(line);
      ReadLine(Reading(before, WithChunk(patch, chunk.(lines := init))), Mark(line.kind) + line.text);
      LineAdded(before, patch, chunk.(lines := init), line);
      assert init + [line] == lines;
    }
  }

  lemma TextIsLine(line: ChunkLine)
    requires LineOk(line)
    ensures OneLine(Mark(line.kind) + line.text)
  {
  }

  lemma LineAdded(before: State, patch: Patch, chunk: Chunk, line: ChunkLine)
    requires StateOk(before)
    ensures Step(Reading(before, WithChunk(patch, chunk)), Content(line))
            == Ok(Reading(before, WithChunk(patch, chunk.(lines := chunk.lines + [line]))))
  {
    var longer := chunk.(lines := chunk.lines + [line]);
    LastReplaced(patch.chunks, chunk, longer);
    LastReplaced(before.patches, WithChunk(patch, chunk), WithChunk(patch, longer));
  }

  lemma LastReplaced<T>(s: seq<T>, last: T, other: T)
    ensures (s + [last])[|s| := other] == s + [other]
  {
  }

  lemma ChunkRead(before: State, patch: Patch, chunk: Chunk)
    requires StateOk(before) && ChunkOk(chunk)
    ensures Ended(ChunkText(chunk))
    ensures Read(Reading(before, patch), ChunkText(chunk)) == Ok(Reading(before, WithChunk(patch, chunk)))
  {
    hide Lexed, Read, LinesText, LinesOk;
    var st, bare := Reading(before, patch), chunk.(lines := []);
    HeaderIsLine(chunk);
    var line :| OneLine(line) && ChunkHeader(chunk) == line + "\n";
    ReadLine(st, line);
    HeaderLexed(chunk);
    LastReplaced(before.patches, patch, WithChunk(patch, bare));
    assert Step(st, ChunkStart(chunk.srcPos, chunk.dstPos)) == Ok(Reading(before, WithChunk(patch, bare)));
    ReadConcat(st, ChunkHeader(chunk), LinesText(chunk.lines));
    LinesRead(before, patch, bare, chunk.lines);
    assert bare.(lines := chunk.lines) == chunk;
  }

  lemma {:induction false} ChunksRead(before: State, patch: Patch, chunks: seq<Chunk>)
    requires StateOk(before) && ChunksOk(chunks) && patch.chunks == []
    ensures Ended(ChunksText(chunks))
    ensures Read(Reading(before, patch), ChunksText(chunks)) == Ok(Reading(before, patch.(chunks := chunks)))
  {
    hide ChunkOk, ChunkText, Read, Reading;
    if chunks == [] {
      ReadNothing(Reading(before, patch));
      assert patch.(chunks := chunks) == patch;
    } else {
      var init, last := chunks[..|chunks| - 1], chunks[|chunks| - 1];
      ChunksRead(before, patch, init);
      ChunkRead(before, patch.(chunks := init), last);
      ReadConcat(Reading(before, patch), ChunksText(init), ChunkText(last));
      assert init + [last] == chunks;
    }
  }

  lemma PatchRead(before: State, patch: Patch)
    requires StateOk(before) && PatchOk(patch)
    ensures Ended(PatchText(patch))
    ensures Read(before, PatchText(patch)) == Ok(Reading(before, patch))
  {
    hide Lexed, Read, ChunksText, ChunksOk;
    var first, second := "--- " + patch.src + "\n", "+++ " + patch.dst + "\n";
    var named, bare := Patch(patch.src, "", []), Patch(patch.src, patch.dst, []);
    SrcFileLexed(patch.src);
    ReadLine(before, "--- " + patch.src);
    assert Read(before, first) == Ok(Reading(before, named));
    DstFileLexed(patch.dst);
    ReadLine(Reading(before, named), "+++ " + patch.dst);
    LastReplaced(before.patches, named, bare);
    assert Read(Reading(before, named), second) == Ok(Reading(before, bare));
    ReadConcat(before, first, second + ChunksText(patch.chunks));
    ReadConcat(Reading(before, named), second, ChunksText(patch.chunks));
    ChunksRead(before, bare, patch.chunks);
    assert PatchText(patch) == first + (second + ChunksText(patch.chunks));
    assert bare.(chunks := patch.chunks) == patch;
  }

  lemma {:induction false} PatchesRead(patches: seq<Patch>)
    requires Printable(patches)
    ensures Ended(Text(patches))
    ensures Read(START, Text(patches)).Ok? && Read(START, Text(patches)).value.patches == patches
  {
    hide PatchText, PatchOk, Read;
    if patches == [] {
      ReadNothing(START);
    } else {
      var init, last := patches[..|patches| - 1], patches[|patches| - 1];
      PatchesRead(init);
      PatchRead(Read(START, Text(init)).value, last);
      ReadConcat(START, Text(init), PatchText(last));
      assert init + [last] == patches;
    }
  }

  // ---------------------------------------------------------------- what the parser can return

  ghost predicate TokenOk(token: Token) {
    match token
    case SrcFile(name) => OneLine(name)
    case DstFile(name) => OneLine(name)
    case ChunkStart(_, _) => true
    case Content(line) => LineOk(line)
    case NoMatch => true
  }

  lemma AfterIsOneLine(prefix: string, line: string)
    ensures After(prefix, line).Some? ==> OneLine(After(prefix, line).value)
  {
  }

  /** A line whose content starts with the rest of a file mark is taken for a file name. */
  lemma MarkWins(mark: char, rest: string, line: string)
    requires After([mark], line).Some? && rest <= After([mark], line).value && OneLine(rest)
    ensures After([mark] + rest, line).Some?
  {
    var text := After([mark], line).value;
    assert line[0] == mark && DropNewline(line[1..]) == text;
    assert line[1..][..|text|] == text;
    assert line[..1 + |rest|] == [mark] + rest;
    assert line[1..][|rest|..] == line[1 + |rest|..];
    assert DropNewline(line[1 + |rest|..]) == text[|rest|..];
  }

  lemma LexedIsOk(line: string)
    ensures TokenOk(Lexed(line))
  {
    hide ChunkMatch, After;
    AfterIsOneLine("--- ", line);
    AfterIsOneLine("+++ ", line);
    AfterIsOneLine("-", line);
    AfterIsOneLine("+", line);
    AfterIsOneLine(" ", line);
    assert "-" == ['-'] && "+" == ['+'] && "--- " == ['-'] + "-- " && "+++ " == ['+'] + "++ ";
    if After("-", line).Some? && "-- " <= After("-", line).value {
      MarkWins('-', "-- ", line);
    }
    if After("+", line).Some? && "++ " <= After("+", line).value {
      MarkWins('+', "++ ", line);
    }
  }

  lemma StepKeepsPrintable(st: State, token: Token)
    requires StateOk(st) && Printable(st.patches) && TokenOk(token) && Step(st, token).Ok?
    ensures Printable(Step(st, token).value.patches)
  {
    hide LineOk;
    if token.Content? {
      LineKeepsOk(st.patches[st.chunkIn.value], token.line);
    }
  }

  lemma LineKeepsOk(patch: Patch, line: ChunkLine)
    requires PatchOk(patch) && patch.chunks != [] && LineOk(line)
    ensures PatchOk(WithLine(patch, line))
  {
    hide LineOk;
  }

  lemma {:induction false} StepsKeepPrintable(st: State, lines: seq<string>)
    requires StateOk(st) && Printable(st.patches) && Steps(st, lines).Ok?
    ensures Printable(Steps(st, lines).value.patches)
    decreases |lines|
  {
    hide Step, Lexed, Printable, TokenOk;
    if lines != [] {
      LexedIsOk(lines[0]);
      StepKeepsPrintable(st, Lexed(lines[0]));
      StepsKeepPrintable(Step(st, Lexed(lines[0])).value, lines[1..]);
    }
  }

  /** A patch set is read back unchanged from its text exactly when it is printable. */
  lemma RoundTrip(patches: seq<Patch>)
    requires Typed(patches)
    ensures Parsed(SplitLines(Text(patches))) == Ok(patches) <==> Printable(patches)
  {
    if Parsed(SplitLines(Text(patches))) == Ok(patches) {
      StepsKeepPrintable(START, SplitLines(Text(patches)));
    }
    if Printable(patches) {
      PatchesRead(patches);
    }
  }

  /** Whatever was parsed can be written, and parsing that again changes nothing. */
  lemma ParsedRoundTrips(lines: seq<string>)
    requires Parsed(lines).Ok?
    ensures Printable(Parsed(lines).value) && Typed(Parsed(lines).value)
    ensures Parsed(SplitLines(Text(Parsed(lines).value))) == Parsed(lines)
  {
    var patches := Parsed(lines).value;
    StepsKeepPrintable(START, lines);
    forall i, j, k | 0 <= i < |patches| && 0 <= j < |patches[i].chunks| && 0 <= k < |patches[i].chunks[j].lines|
      ensures patches[i].chunks[j].lines[k].kind != Untyped
    {
      assert PatchOk(patches[i]) && ChunkOk(patches[i].chunks[j]) && LineOk(patches[i].chunks[j].lines[k]);
    }
    RoundTrip(patches);
  }
}
