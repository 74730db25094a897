/** Which texts the tokenizer rejects, and every way of quoting that it undoes. */
module TokenizerQuotes {
  import opened Tokenizer

  // ---------------------------------------------------------------- rejected texts

  /** The number of backslashes at the end of the text. */
  function Backslashes(s: string): nat {
    if s != "" && s[|s| - 1] == '\\' then 1 + Backslashes(s[..|s| - 1]) else 0
  }

  /** The number of quotes that an even number of backslashes precedes. */
  function FreeQuotes(s: string): nat {
    if s == "" then 0
    else
      var init := s[..|s| - 1];
      FreeQuotes(init) + if s[|s| - 1] == '"' && Backslashes(init) % 2 == 0 then 1 else 0
  }

  lemma {:induction false} EscapesIfOdd(s: string)
    ensures Escapes(s) <==> Backslashes(s) % 2 == 1
  {
    if s != "" {
      EscapesIfOdd(s[..|s| - 1]);
    }
  }

  lemma {:induction false} InQuoteIfOdd(s: string)
    ensures InQuote(s) <==> FreeQuotes(s) % 2 == 1
  {
    if s != "" {
      hide Escapes, Backslashes;
      EscapesIfOdd(s[..|s| - 1]);
      InQuoteIfOdd(s[..|s| - 1]);
    }
  }

  /** A text is rejected iff it ends in an odd number of backslashes, or else has an odd number of free quotes. */
  lemma RejectedIff(s: string)
    ensures TokensOf(s) == Rejected(TrailingBackslash) <==> Backslashes(s) % 2 == 1
    ensures TokensOf(s) == Rejected(OpenQuote) <==> Backslashes(s) % 2 == 0 && FreeQuotes(s) % 2 == 1
  {
    hide Escapes, InQuote, Backslashes, FreeQuotes;
    EscapesIfOdd(s);
    InQuoteIfOdd(s);
  }

  // ---------------------------------------------------------------- all ways of quoting

  /** One character of an argument: as it is, or after a backslash. */
  datatype Unit = Unit(c: char, escaped: bool)

  /** A stretch of an argument, between quotes or not. */
  datatype Piece = Piece(units: seq<Unit>, quoted: bool)

  function UnitText(u: Unit): string {
    if u.escaped then ['\\', u.c] else [u.c]
  }

  function UnitsText(units: seq<Unit>): string {
    if units == [] then "" else UnitsText(units[..|units| - 1]) + UnitText(units[|units| - 1])
  }

  function PieceText(p: Piece): string {
    if p.quoted then "\"" + UnitsText(p.units) + "\"" else UnitsText(p.units)
  }

  function PiecesText(pieces: seq<Piece>): string {
    if pieces == [] then "" else PiecesText(pieces[..|pieces| - 1]) + PieceText(pieces[|pieces| - 1])
  }

  function UnitsValue(units: seq<Unit>): string {
    if units == [] then "" else UnitsValue(units[..|units| - 1]) + [units[|units| - 1].c]
  }

  /** The argument that the pieces spell. */
  function PiecesValue(pieces: seq<Piece>): string {
    if pieces == [] then "" else PiecesValue(pieces[..|pieces| - 1]) + UnitsValue(pieces[|pieces| - 1].units)
  }

  /** Quotes and backslashes need a backslash everywhere, and a blank needs one outside quotes. */
  ghost predicate UnitOk(u: Unit, quoted: bool) {
    !u.escaped ==> u.c != '"' && u.c != '\\' && (u.c == ' ' ==> quoted)
  }

  ghost predicate UnitsOk(units: seq<Unit>, quoted: bool) {
    forall k :: 0 <= k < |units| ==> UnitOk(units[k], quoted)
  }

  ghost predicate PiecesOk(pieces: seq<Piece>) {
    forall k :: 0 <= k < |pieces| ==> UnitsOk(pieces[k].units, pieces[k].quoted)
  }

  ghost predicate AllPiecesOk(args: seq<seq<Piece>>) {
    forall k :: 0 <= k < |args| ==> PiecesOk(args[k])
  }

  /** Arguments in any such spelling, with single blanks between them. */
  function Spelled(args: seq<seq<Piece>>): string {
    if args == [] then ""
    else if |args| == 1 then PiecesText(args[0])
    else Spelled(args[..|args| - 1]) + " " + PiecesText(args[|args| - 1])
  }

  function Values(args: seq<seq<Piece>>): (v: seq<string>)
    ensures |v| == |args| && forall k :: 0 <= k < |args| ==> v[k] == PiecesValue(args[k])
  {
    seq(|args|, k requires 0 <= k < |args| => PiecesValue(args[k]))
  }

  /** The text so far does not end in an escape, is inside quotes or not, and has these fields. */
  ghost predicate At(s: string, quoted: bool, f: Fields) {
    !Escapes(s) && InQuote(s) == quoted && FieldsOf(s) == f
  }

  lemma UnitAt(s: string, quoted: bool, f: Fields, u: Unit)
    requires At(s, quoted, f) && UnitOk(u, quoted)
    ensures At(s + UnitText(u), quoted, Fields(f.done, f.open + [u.c]))
  {
    hide Escapes, InQuote, FieldsOf;
    if u.escaped {
      OneMore(s, '\\');
      OneMore(s + ['\\'], u.c);
      assert s + UnitText(u) == s + ['\\'] + [u.c];
    } else {
      OneMore(s, u.c);
    }
  }

  lemma {:induction false} UnitsAt(s: string, quoted: bool, f: Fields, units: seq<Unit>)
    requires At(s, quoted, f) && UnitsOk(units, quoted)
    ensures At(s + UnitsText(units), quoted, Fields(f.done, f.open + UnitsValue(units)))
  {
    hide At, UnitText, UnitOk;
    if units == [] {
      assert s + UnitsText(units) == s && f.open + UnitsValue(units) == f.open;
    } else {
      var init, u := units[..|units| - 1], units[|units| - 1];
      UnitsAt(s, quoted, f, init);
      UnitAt(s + UnitsText(init), quoted, Fields(f.done, f.open + UnitsValue(init)), u);
      assert s + UnitsText(units) == s + UnitsText(init) + UnitText(u);
      assert f.open + UnitsValue(units) == f.open + UnitsValue(init) + [u.c];
    }
  }

  lemma QuoteAt(s: string, quoted: bool, f: Fields)
    requires At(s, quoted, f)
    ensures At(s + "\"", !quoted, f)
  {
    hide Escapes, InQuote, FieldsOf;
    OneMore(s, '"');
    assert s + "\"" == s + ['"'];
  }

  lemma PieceAt(s: string, f: Fields, p: Piece)
    requires At(s, false, f) && UnitsOk(p.units, p.quoted)
    ensures At(s + PieceText(p), false, Fields(f.done, f.open + UnitsValue(p.units)))
  {
    hide At, UnitsOk, UnitsText, UnitsValue;
    if p.quoted {
      QuoteAt(s, false, f);
      UnitsAt(s + "\"", true, f, p.units);
      QuoteAt(s + "\"" + UnitsText(p.units), true, Fields(f.done, f.open + UnitsValue(p.units)));
      assert s + PieceText(p) == s + "\"" + UnitsText(p.units) + "\"";
    } else {
      UnitsAt(s, false, f, p.units);
    }
  }

  lemma {:induction false} PiecesAt(s: string, f: Fields, pieces: seq<Piece>)
    requires At(s, false, f) && PiecesOk(pieces)
    ensures At(s + PiecesText(pieces), false, Fields(f.done, f.open + PiecesValue(pieces)))
  {
    hide At, UnitsOk, PieceText, UnitsValue;
    if pieces == [] {
      assert s + PiecesText(pieces) == s && f.open + PiecesValue(pieces) == f.open;
    } else {
      var init, p := pieces[..|pieces| - 1], pieces[|pieces| - 1];
      PiecesAt(s, f, init);
      PieceAt(s + PiecesText(init), Fields(f.done, f.open + PiecesValue(init)), p);
      assert s + PiecesText(pieces) == s + PiecesText(init) + PieceText(p);
      assert f.open + PiecesValue(pieces) == f.open + PiecesValue(init) + UnitsValue(p.units);
    }
  }

  lemma BlankAt(s: string, f: Fields)
    requires At(s, false, f)
    ensures At(s + " ", false, Fields(f.done + [f.open], ""))
  {
    hide Escapes, InQuote, FieldsOf;
    OneMore(s, ' ');
    assert s + " " == s + [' '];
  }

  lemma {:induction false} SpelledAt(args: seq<seq<Piece>>)
    requires args != [] && AllPiecesOk(args)
    ensures At(Spelled(args), false, Fields(Values(args)[..|args| - 1], Values(args)[|args| - 1]))
  {
    hide At, PiecesText, PiecesOk, PiecesValue;
    NothingAt();
    if |args| == 1 {
      PiecesAt("", Fields([], ""), args[0]);
      assert "" + PiecesText(args[0]) == PiecesText(args[0]) && "" + PiecesValue(args[0]) == PiecesValue(args[0]);
    } else {
      var n := |args| - 1;
      var init := args[..n];
      SpelledAt(init);
      assert Values(init) == Values(args)[..n];
      assert Values(init)[..n - 1] + [Values(init)[n - 1]] == Values(args)[..n];
      BlankAt(Spelled(init), Fields(Values(init)[..n - 1], Values(init)[n - 1]));
      PiecesAt(Spelled(init) + " ", Fields(Values(args)[..n], ""), args[n]);
      assert "" + PiecesValue(args[n]) == PiecesValue(args[n]);
    }
  }

  lemma NothingAt()
    ensures At("", false, Fields([], ""))
  {
  }

  /** However arguments are spelled, with backslashes, quotes or both, tokenizing gives all but an empty last one. */
  lemma TokenizeUndoesSpelling(args: seq<seq<Piece>>)
    requires AllPiecesOk(args)
    ensures TokensOf(Spelled(args)) == Args(Surviving(Values(args)))
  {
    hide Spelled, AllPiecesOk, AllFields, Surviving;
    if args == [] {
      assert Spelled(args) == "" by {
        NothingSpelled();
      }
      NoFields();
      NothingAt();
      NothingSurvives();
    } else {
      SpelledAt(args);
      SurvivingFields(Values(args));
    }
  }

  lemma NothingSpelled()
    ensures Spelled([]) == ""
  {
  }

  lemma NothingSurvives()
    ensures Surviving([]) == []
  {
  }
}
