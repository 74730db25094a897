/** The text of unified patches: what is written for a patch set, and what the parser makes of a line. */
module Patchset {
  import opened Wrappers
  import opened Sequences
  import opened Strings

  /** `Untyped` is a line object that has not been set. */
  datatype Kind = Untyped | Src | Dst | Both

  datatype ChunkLine = ChunkLine(kind: Kind, text: string)

  datatype Chunk = Chunk(srcPos: int, dstPos: int, lines: seq<ChunkLine>)

  datatype Patch = Patch(src: string, dst: string, chunks: seq<Chunk>)

  // ---------------------------------------------------------------- decimal numbers

  predicate IsDigit(c: char) {
    '0' <= c <= '9'
  }

  function DigitChar(d: nat): char
    requires d < 10
  {
    '0' + d as char
  }

  function DigitValue(c: char): nat
    requires IsDigit(c)
  {
    c as int - '0' as int
  }

  function Decimal(n: nat): (s: string)
    ensures s != [] && forall k :: 0 <= k < |s| ==> IsDigit(s[k])
  {
    if n < 10 then [DigitChar(n)] else Decimal(n / 10) + [DigitChar(n % 10)]
  }

  function Printed(n: int): string {
    if n < 0 then "-" + Decimal(-n) else Decimal(n)
  }

  function Number(s: string): nat
    requires forall k :: 0 <= k < |s| ==> IsDigit(s[k])
  {
    if s == [] then 0 else 10 * Number(s[..|s| - 1]) + DigitValue(s[|s| - 1])
  }

  lemma {:induction false} NumberOfDecimal(n: nat)
    ensures Number(Decimal(n)) == n
  {
    if n >= 10 {
      NumberOfDecimal(n / 10);
      assert Decimal(n)[..|Decimal(n)| - 1] == Decimal(n / 10);
    }
  }

  // ---------------------------------------------------------------- writing

  function Mark(kind: Kind): string {
    match kind
    case Src => "-"
    case Dst => "+"
    case Both => " "
    case Untyped => ""
  }

  function LineText(line: ChunkLine): string {
    Mark(line.kind) + line.text + "\n"
  }

  predicate InSrc(line: ChunkLine) {
    line.kind == Src || line.kind == Both
  }

  predicate InDst(line: ChunkLine) {
    line.kind == Dst || line.kind == Both
  }

  function SrcLen(lines: seq<ChunkLine>): nat {
    if lines == [] then 0 else SrcLen(lines[..|lines| - 1]) + if InSrc(lines[|lines| - 1]) then 1 else 0
  }

  function DstLen(lines: seq<ChunkLine>): nat {
    if lines == [] then 0 else DstLen(lines[..|lines| - 1]) + if InDst(lines[|lines| - 1]) then 1 else 0
  }

  function ChunkHeader(chunk: Chunk): string {
    "@@ -" + Printed(chunk.srcPos) + "," + Printed(SrcLen(chunk.lines))
    + " +" + Printed(chunk.dstPos) + "," + Printed(DstLen(chunk.lines)) + " @@\n"
  }

  function LinesText(lines: seq<ChunkLine>): string {
    if lines == [] then "" else LinesText(lines[..|lines| - 1]) + LineText(lines[|lines| - 1])
  }

  function ChunkText(chunk: Chunk): string {
    ChunkHeader(chunk) + LinesText(chunk.lines)
  }

  function ChunksText(chunks: seq<Chunk>): string {
    if chunks == [] then "" else ChunksText(chunks[..|chunks| - 1]) + ChunkText(chunks[|chunks| - 1])
  }

  function PatchText(patch: Patch): string {
    "--- " + patch.src + "\n" + "+++ " + patch.dst + "\n" + ChunksText(patch.chunks)
  }

  function Text(patches: seq<Patch>): string {
    if patches == [] then "" else Text(patches[..|patches| - 1]) + PatchText(patches[|patches| - 1])
  }

  /** Writing a line object that has not been set raises an exception. */
  predicate Typed(patches: seq<Patch>) {
    forall i, j, k :: 0 <= i < |patches| && 0 <= j < |patches[i].chunks| && 0 <= k < |patches[i].chunks[j].lines|
      ==> patches[i].chunks[j].lines[k].kind != Untyped
  }

  // ---------------------------------------------------------------- what a chunk's text looks like

  /** How many of the lines begin with one of two marks. */
  function Marked(body: seq<string>, a: char, b: char): nat {
    if body == [] then 0
    else
      var last := body[|body| - 1];
      Marked(body[..|body| - 1], a, b) + if last != "" && (last[0] == a || last[0] == b) then 1 else 0
  }

  function Concat(body: seq<string>): string {
    if body == [] then "" else Concat(body[..|body| - 1]) + body[|body| - 1]
  }

  /** A mark, the text, and the end of the line. */
  ghost predicate IsBodyLine(s: string, line: ChunkLine) {
    |s| == |line.text| + 2 && s[1..|s| - 1] == line.text && s[|s| - 1] == '\n'
  }

  ghost predicate IsBody(body: seq<string>, lines: seq<ChunkLine>) {
    |body| == |lines| && forall k :: 0 <= k < |body| ==> IsBodyLine(body[k], lines[k])
  }

  /** The header counts the lines of the body by the marks that they begin with. */
  ghost predicate CountsItsBody(text: string, srcPos: int, dstPos: int, body: seq<string>) {
    text == "@@ -" + Printed(srcPos) + "," + Printed(Marked(body, '-', ' '))
            + " +" + Printed(dstPos) + "," + Printed(Marked(body, '+', ' ')) + " @@\n" + Concat(body)
  }

  ghost predicate IsChunkText(text: string, srcPos: int, dstPos: int, lines: seq<ChunkLine>) {
    exists body :: IsBody(body, lines) && CountsItsBody(text, srcPos, dstPos, body)
  }

  function BodyOf(lines: seq<ChunkLine>): seq<string> {
    if lines == [] then [] else BodyOf(lines[..|lines| - 1]) + [LineText(lines[|lines| - 1])]
  }

  lemma {:induction false} BodyCounts(lines: seq<ChunkLine>)
    requires forall k :: 0 <= k < |lines| ==> lines[k].kind != Untyped
    ensures IsBody(BodyOf(lines), lines) && Concat(BodyOf(lines)) == LinesText(lines)
    ensures Marked(BodyOf(lines), '-', ' ') == SrcLen(lines) && Marked(BodyOf(lines), '+', ' ') == DstLen(lines)
  {
    hide IsBody, IsBodyLine, LineText, BodyOf, Marked, Concat, SrcLen, DstLen, LinesText, InSrc, InDst;
    if lines == [] {
      NoBody();
    } else {
      var n := |lines| - 1;
      var body, s := BodyOf(lines[..n]), LineText(lines[n]);
      BodyCounts(lines[..n]);
      BodyParts(lines);
      LineOfBody(lines[n]);
      LongerBody(body, lines[..n], s, lines[n]);
      MoreMarked(body, s, '-');
      MoreMarked(body, s, '+');
      assert lines[..n] + [lines[n]] == lines;
    }
  }

  lemma NoBody()
    ensures IsBody(BodyOf([]), []) && Concat(BodyOf([])) == LinesText([])
    ensures Marked(BodyOf([]), '-', ' ') == SrcLen([]) && Marked(BodyOf([]), '+', ' ') == DstLen([])
  {
  }

  lemma BodyParts(lines: seq<ChunkLine>)
    requires lines != []
    ensures var n := |lines| - 1;
            && BodyOf(lines) == BodyOf(lines[..n]) + [LineText(lines[n])]
            && LinesText(lines) == LinesText(lines[..n]) + LineText(lines[n])
            && SrcLen(lines) == SrcLen(lines[..n]) + (if InSrc(lines[n]) then 1 else 0)
            && DstLen(lines) == DstLen(lines[..n]) + (if InDst(lines[n]) then 1 else 0)
  {
    hide LineText, InSrc, InDst;
  }

  lemma MoreMarked(body: seq<string>, s: string, a: char)
    requires s != ""
    ensures Marked(body + [s], a, ' ') == Marked(body, a, ' ') + if s[0] == a || s[0] == ' ' then 1 else 0
    ensures Concat(body + [s]) == Concat(body) + s
  {
    assert (body + [s])[..|body|] == body;
  }

  lemma LineOfBody(line: ChunkLine)
    requires line.kind != Untyped
    ensures var s := LineText(line);
            && IsBodyLine(s, line) && s != ""
            && ((s[0] == '-' || s[0] == ' ') <==> InSrc(line)) && ((s[0] == '+' || s[0] == ' ') <==> InDst(line))
  {
    var s := LineText(line);
    assert s[0] == Mark(line.kind)[0] && s[1..] == line.text + "\n";
    assert s[1..|s| - 1] == line.text;
  }

  lemma LongerBody(body: seq<string>, lines: seq<ChunkLine>, s: string, line: ChunkLine)
    requires IsBody(body, lines) && IsBodyLine(s, line)
    ensures IsBody(body + [s], lines + [line])
  {
    hide IsBodyLine;
  }

  /** The text of a chunk announces exactly the lines that follow. */
  lemma ChunkTextCounts(chunk: Chunk)
    requires forall k :: 0 <= k < |chunk.lines| ==> chunk.lines[k].kind != Untyped
    ensures IsChunkText(ChunkText(chunk), chunk.srcPos, chunk.dstPos, chunk.lines)
  {
    hide Printed, Marked, Concat, IsBody, SrcLen, DstLen, LinesText;
    BodyCounts(chunk.lines);
    assert CountsItsBody(ChunkText(chunk), chunk.srcPos, chunk.dstPos, BodyOf(chunk.lines));
  }

  // ---------------------------------------------------------------- reading one line

  datatype Token =
    | SrcFile(name: string)
    | DstFile(name: string)
    | ChunkStart(srcPos: nat, dstPos: nat)
    | Content(line: ChunkLine)
    | NoMatch

  /** What follows a prefix up to the end of the line; a dot does not match a newline. */
  function After(prefix: string, line: string): Option<string> {
    if prefix <= line then
      var rest := DropNewline(line[|prefix|..]);
      if '\n' in rest then None else Some(rest)
    else None
  }

  function DigitCount(s: string): (n: nat)
    ensures n <= |s| && forall k :: 0 <= k < n ==> IsDigit(s[k])
  {
    if s != [] && IsDigit(s[0]) then 1 + DigitCount(s[1..]) else 0
  }

  /** A literal text and then a number. */
  function TakeNumber(prefix: string, s: string): Option<(nat, string)> {
    if !(prefix <= s) then None
    else
      var t := s[|prefix|..];
      var n := DigitCount(t);
      if n == 0 then None else Some((Number(t[..n]), t[n..]))
  }

  /** The four numbers of a chunk header; the two lengths are not kept. */
  function ChunkMatch(line: string): Option<(nat, nat)> {
    var a := TakeNumber("@@ -", line);
    if a.None? then None
    else
      var b := TakeNumber(",", a.value.1);
      if b.None? then None
      else
        var c := TakeNumber(" +", b.value.1);
        if c.None? then None
        else
          var d := TakeNumber(",", c.value.1);
          if d.Some? && " @@" <= d.value.1 then Some((a.value.0, c.value.0)) else None
  }

  /** The expressions are tried in this order. */
  function Lexed(line: string): Token {
    var srcFile := After("--- ", line);
    if srcFile.Some? then SrcFile(srcFile.value)
    else
      var dstFile := After("+++ ", line);
      if dstFile.Some? then DstFile(dstFile.value)
      else
        var start := ChunkMatch(line);
        if start.Some? then ChunkStart(start.value.0, start.value.1)
        else
          var src := After("-", line);
          if src.Some? then Content(ChunkLine(Src, src.value))
          else
            var dst := After("+", line);
            if dst.Some? then Content(ChunkLine(Dst, dst.value))
            else
              var both := After(" ", line);
              if both.Some? then Content(ChunkLine(Both, both.value)) else NoMatch
  }

  // ---------------------------------------------------------------- reading all lines

  /** The patches so far, and the patch that holds the current chunk, which is that patch's last. */
  datatype State = State(patches: seq<Patch>, chunkIn: Option<nat>)

  predicate StateOk(st: State) {
    st.chunkIn.Some? ==> st.chunkIn.value < |st.patches| && st.patches[st.chunkIn.value].chunks != []
  }

  function WithDst(patch: Patch, name: string): Patch {
    patch.(dst := name)
  }

  function WithChunk(patch: Patch, chunk: Chunk): Patch {
    patch.(chunks := patch.chunks + [chunk])
  }

  /** A line is added to the last chunk. */
  function WithLine(patch: Patch, line: ChunkLine): Patch
    requires patch.chunks != []
  {
    var n := |patch.chunks| - 1;
    var chunk := patch.chunks[n];
    patch.(chunks := patch.chunks[n := chunk.(lines := chunk.lines + [line])])
  }

  /** Headers need a current patch and contents a current chunk; a new patch does not end the current chunk. */
  function Step(st: State, token: Token): (r: Result<State>)
    requires StateOk(st)
    ensures r.Ok? ==> StateOk(r.value)
  {
    var n := |st.patches| - 1;
    match token
    case SrcFile(name) => Ok(st.(patches := st.patches + [Patch(name, "", [])]))
    case DstFile(name) =>
      if n < 0 then Failed else Ok(st.(patches := st.patches[n := WithDst(st.patches[n], name)]))
    case ChunkStart(srcPos, dstPos) =>
      if n < 0 then Failed
      else Ok(State(st.patches[n := WithChunk(st.patches[n], Chunk(srcPos, dstPos, []))], Some(n)))
    case Content(line) =>
      if st.chunkIn.None? then Failed
      else
        var i := st.chunkIn.value;
        Ok(st.(patches := st.patches[i := WithLine(st.patches[i], line)]))
    case NoMatch => Failed
  }

  function Steps(st: State, lines: seq<string>): (r: Result<State>)
    requires StateOk(st)
    ensures r.Ok? ==> StateOk(r.value)
    decreases |lines|
  {
    if lines == [] then Ok(st)
    else
      var next := Step(st, Lexed(lines[0]));
      if next.Failed? then Failed else Steps(next.value, lines[1..])
  }

  const START := State([], None)

  function Parsed(lines: seq<string>): Result<seq<Patch>> {
    var st := Steps(START, lines);
    if st.Failed? then Failed else Ok(st.value.patches)
  }

  /** The lines of a file, each with the newline that ends it. */
  function SplitLines(text: string): seq<string>
    decreases |text|
  {
    var k := IndexOf(text, '\n');
    if k == |text| then if text == [] then [] else [text]
    else [text[..k + 1]] + SplitLines(text[k + 1..])
  }
}
