/** The splitting of a command line into arguments. */
module Tokenizer {

  datatype Fault = TrailingBackslash | OpenQuote

  datatype Tokens = Args(args: seq<string>) | Rejected(fault: Fault)

  // ---------------------------------------------------------------- what each character means, from what precedes it

  /** The character after this text is escaped: the text ends in a backslash that is not itself escaped. */
  predicate Escapes(s: string) {
    s != [] && s[|s| - 1] == '\\' && !Escapes(s[..|s| - 1])
  }

  /** The character after this text is inside quotes: an odd number of unescaped quotes precedes it. */
  predicate InQuote(s: string) {
    s != [] &&
    var init := s[..|s| - 1];
    if s[|s| - 1] == '"' && !Escapes(init) then !InQuote(init) else InQuote(init)
  }

  datatype Fields = Fields(done: seq<string>, open: string)

  /** Unescaped blanks outside quotes separate; unescaped quotes and backslashes vanish; the rest is kept. */
  function FieldsOf(s: string): Fields {
    if s == [] then Fields([], "")
    else
      var init, c := s[..|s| - 1], s[|s| - 1];
      var f := FieldsOf(init);
      if Escapes(init) then Fields(f.done, f.open + [c])
      else if c == '"' || c == '\\' then f
      else if c == ' ' && !InQuote(init) then Fields(f.done + [f.open], "")
      else Fields(f.done, f.open + [c])
  }

  /** An empty last argument is dropped. */
  function AllFields(f: Fields): seq<string> {
    if f.open == "" then f.done else f.done + [f.open]
  }

  function TokensOf(s: string): Tokens {
    if Escapes(s) then Rejected(TrailingBackslash)
    else if InQuote(s) then Rejected(OpenQuote)
    else Args(AllFields(FieldsOf(s)))
  }

  class Parser {
    var errors: seq<string>

    constructor ()
      ensures errors == []
    {
      errors := [];
    }

    /** Splits the text; at most one error is recorded, and exactly when the text is rejected. */
    method Tokenize(arg: string) returns (ok: bool, args: seq<string>)
      modifies this
      ensures ok <==> TokensOf(arg).Args?
      ensures ok ==> args == TokensOf(arg).args && errors == old(errors)
      ensures TokensOf(arg) == Rejected(TrailingBackslash) ==>
                errors == old(errors) + ["unexpected occurrence of '\\' at end of string"]
      ensures TokensOf(arg) == Rejected(OpenQuote) ==> errors == old(errors) + ["quote is not closed"]
    {
      args := [];
      var buf, inQuote, i := "", false, 0;
      while i < |arg|
        invariant i <= |arg| && errors == old(errors)
        invariant !Escapes(arg[..i]) && inQuote == InQuote(arg[..i])
        invariant FieldsOf(arg[..i]) == Fields(args, buf)
      {
        assert arg[..i + 1][..i] == arg[..i];
        if arg[i] == '"' {
          inQuote := !inQuote;
          i := i + 1;
          continue;
        }
        if arg[i] == ' ' && !inQuote {
          args := args + [buf];
          buf := "";
          i := i + 1;
          continue;
        }
        if arg[i] == '\\' {
          i := i + 1;
          if i >= |arg| {
            assert arg[..i] == arg;
            errors := errors + ["unexpected occurrence of '\\' at end of string"];
            return false, args;
          }
          assert arg[..i + 1][..i] == arg[..i];
        }
        buf := buf + [arg[i]];
        i := i + 1;
      }
      assert arg[..i] == arg;
      if inQuote {
        errors := errors + ["quote is not closed"];
        return false, args;
      }
      if |buf| > 0 {
        args := args + [buf];
      }
      return true, args;
    }
  }

  // ---------------------------------------------------------------- quoting

  predicate IsSpecial(c: char) {
    c == '"' || c == ' ' || c == '\\'
  }

  function QuotedChar(c: char): string {
    if IsSpecial(c) then ['\\', c] else [c]
  }

  /** A backslash before every quote, blank and backslash. */
  function Quoted(arg: string): string {
    if arg == [] then "" else Quoted(arg[..|arg| - 1]) + QuotedChar(arg[|arg| - 1])
  }

  /** The quoted arguments with single blanks between them. */
  function Joined(args: seq<string>): string {
    if args == [] then ""
    else if |args| == 1 then Quoted(args[0])
    else Joined(args[..|args| - 1]) + " " + Quoted(args[|args| - 1])
  }

  /** The text so far ends neither in an escape nor inside quotes, with these fields. */
  ghost predicate Stands(s: string, f: Fields) {
    !Escapes(s) && !InQuote(s) && FieldsOf(s) == f
  }

  lemma OneMore(s: string, c: char)
    ensures Escapes(s + [c]) <==> c == '\\' && !Escapes(s)
    ensures InQuote(s + [c]) <==> if c == '"' && !Escapes(s) then !InQuote(s) else InQuote(s)
    ensures FieldsOf(s + [c])
            == var f := FieldsOf(s);
               if Escapes(s) then Fields(f.done, f.open + [c])
               else if c == '"' || c == '\\' then f
               else if c == ' ' && !InQuote(s) then Fields(f.done + [f.open], "")
               else Fields(f.done, f.open + [c])
  {
    assert (s + [c])[..|s|] == s;
  }

  lemma CharStands(s: string, f: Fields, c: char)
    requires Stands(s, f)
    ensures Stands(s + QuotedChar(c), Fields(f.done, f.open + [c]))
  {
    hide Escapes, InQuote, FieldsOf;
    if IsSpecial(c) {
      OneMore(s, '\\');
      OneMore(s + ['\\'], c);
      assert s + QuotedChar(c) == s + ['\\'] + [c];
    } else {
      OneMore(s, c);
    }
  }

  lemma {:induction false} QuotedStands(s: string, f: Fields, arg: string)
    requires Stands(s, f)
    ensures Stands(s + Quoted(arg), Fields(f.done, f.open + arg))
  {
    hide Stands, QuotedChar;
    if arg == [] {
      assert s + Quoted(arg) == s && f.open + arg == f.open;
    } else {
      var init, c := arg[..|arg| - 1], arg[|arg| - 1];
      QuotedStands(s, f, init);
      CharStands(s + Quoted(init), Fields(f.done, f.open + init), c);
      assert s + Quoted(arg) == s + Quoted(init) + QuotedChar(c);
      assert f.open + arg == f.open + init + [c];
    }
  }

  lemma {:induction false} JoinedStands(args: seq<string>)
    requires args != []
    ensures Stands(Joined(args), Fields(args[..|args| - 1], args[|args| - 1]))
  {
    hide Quoted, Escapes, InQuote, FieldsOf;
    NothingStands();
    if |args| == 1 {
      QuotedStands("", Fields([], ""), args[0]);
      assert "" + Quoted(args[0]) == Quoted(args[0]) && "" + args[0] == args[0];
    } else {
      var n := |args| - 1;
      JoinedStands(args[..n]);
      OneMore(Joined(args[..n]), ' ');
      assert args[..n][..n - 1] + [args[n - 1]] == args[..n];
      QuotedStands(Joined(args[..n]) + " ", Fields(args[..n], ""), args[n]);
      assert "" + args[n] == args[n];
    }
  }

  lemma NothingStands()
    ensures Stands("", Fields([], ""))
  {
  }

  /** The arguments that survive quoting: all of them but an empty last one. */
  function Surviving(args: seq<string>): seq<string> {
    if args != [] && args[|args| - 1] == "" then args[..|args| - 1] else args
  }

  lemma StandingTokens(s: string, f: Fields)
    requires Stands(s, f)
    ensures TokensOf(s) == Args(AllFields(f))
  {
  }

  lemma SurvivingFields(args: seq<string>)
    requires args != []
    ensures AllFields(Fields(args[..|args| - 1], args[|args| - 1])) == Surviving(args)
    ensures Surviving(args) == args <==> args[|args| - 1] != ""
  {
    assert args[..|args| - 1] + [args[|args| - 1]] == args;
  }

  /** Tokenizing the quoted text gives the arguments back, except that an empty last one is lost. */
  lemma TokenizeUndoesQuoting(args: seq<string>)
    ensures TokensOf(Joined(args)) == Args(Surviving(args))
    ensures TokensOf(Joined(args)) == Args(args) <==> args == [] || args[|args| - 1] != ""
  {
    hide Stands, TokensOf, AllFields;
    if args == [] {
      NothingStands();
      StandingTokens("", Fields([], ""));
      NoFields();
    } else {
      hide Surviving, Joined;
      JoinedStands(args);
      StandingTokens(Joined(args), Fields(args[..|args| - 1], args[|args| - 1]));
      SurvivingFields(args);
    }
  }

  lemma NoFields()
    ensures AllFields(Fields([], "")) == []
  {
  }

  /** Quoting tells apart any two lists that do not end in an empty argument. */
  lemma QuotingIsInjective(a: seq<string>, b: seq<string>)
    requires Joined(a) == Joined(b)
    ensures Surviving(a) == Surviving(b)
  {
    TokenizeUndoesQuoting(a);
    TokenizeUndoesQuoting(b);
  }
}
