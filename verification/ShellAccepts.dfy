/** Which token lists the mini shell's parser accepts. */
module ShellAccepts {
  import opened Wrappers
  import opened ShellParser
  import opened ShellGrammar

  /** What the tokens read so far say: assignments before a command, or a command with what is pending after it. */
  datatype Partial =
    | Between(prefix: seq<Joined>, assigns: seq<Assign>)
    | Within(prefix: seq<Joined>, elem: Elem, pending: Option<string>)

  function PartialTokens(p: Partial): seq<string> {
    match p
    case Between(prefix, assigns) => PrefixTokens(prefix) + AssignsTokens(assigns)
    case Within(prefix, elem, pending) =>
      PrefixTokens(prefix) + ElemTokens(elem) + if pending.Some? then [pending.value] else []
  }

  function PendingMode(elem: Elem, pending: Option<string>): Mode {
    if pending.None? then ModeOf(elem)
    else if pending.value == ">" then STDOUT
    else if pending.value == "2>" then STDERR
    else STDIN
  }

  function PartialState(p: Partial): State {
    match p
    case Between(prefix, assigns) => State(BEGIN, None, EnvOf(assigns), PrefixNodes(prefix))
    case Within(prefix, elem, pending) =>
      State(PendingMode(elem, pending), Some(ElemNode(elem)), map[], PrefixNodes(prefix))
  }

  ghost predicate PartialOk(p: Partial) {
    && AllJoinedOk(p.prefix)
    && match p
       case Between(_, assigns) => AssignsOk(assigns)
       case Within(_, elem, pending) =>
         ElemOk(elem) && (pending.Some? ==> elem.Simple? && IsRedirection(pending.value))
  }

  lemma PartialFits(p: Partial)
    ensures PartialOk(p) ==> ModeFitsCurrent(PartialState(p))
  {
    hide WithItems;
  }

  // ---------------------------------------------------------------- one more token

  lemma AssignRead(p: Partial, token: string) returns (p': Partial)
    requires PartialOk(p) && p.Between? && EnvMatch(token).Some?
    ensures PartialOk(p') && Step(PartialState(p), token) == Ok(PartialState(p'))
    ensures PartialTokens(p') == PartialTokens(p) + [token]
  {
    hide EnvMatch;
    EnvMatchSpelling(token);
    var (name, value) := EnvMatch(token).value;
    var assign := Assign(name, value, token != name + "=" + value);
    var assigns := p.assigns + [assign];
    assert assigns[..|p.assigns|] == p.assigns;
    assert name + "=" + value + "" == name + "=" + value;
    p' := Between(p.prefix, assigns);
    assert PrefixTokens(p.prefix) + (AssignsTokens(p.assigns) + [token]) == PartialTokens(p) + [token];
  }

  lemma CommandBegun(p: Partial, token: string) returns (p': Partial)
    requires PartialOk(p) && p.Between? && EnvMatch(token).None? && Step(PartialState(p), token).Ok?
    ensures PartialOk(p') && Step(PartialState(p), token) == Ok(PartialState(p'))
    ensures PartialTokens(p') == PartialTokens(p) + [token]
  {
    hide EnvMatch, AssignsOk, AllJoinedOk, PrefixTokens, PrefixNodes;
    if token == "cd" {
      NoEnvNoAssigns(p.assigns);
      p' := Within(p.prefix, Cd(None), None);
      assert PrefixTokens(p.prefix) + [] + ["cd"] == PrefixTokens(p.prefix) + ["cd"] + [];
    } else {
      p' := Within(p.prefix, Simple(p.assigns, token, []), None);
      assert WithItems(NewCommand(token, EnvOf(p.assigns)), []) == NewCommand(token, EnvOf(p.assigns));
      var t := PrefixTokens(p.prefix);
      assert t + (AssignsTokens(p.assigns) + [token] + []) + [] == t + AssignsTokens(p.assigns) + [token];
    }
  }

  lemma NoEnvNoAssigns(assigns: seq<Assign>)
    ensures EnvOf(assigns) == map[] ==> assigns == []
  {
    if assigns != [] {
      assert assigns[|assigns| - 1].name in EnvOf(assigns);
    }
  }

  /** One more argument or complete redirection; `read` of its tokens have been read before. */
  lemma ItemRead(p: Partial, item: Item, read: Option<string>, token: string) returns (p': Partial)
    requires PartialOk(p) && p.Within? && p.elem.Simple? && p.pending == read
    requires ItemTokens(item) == (if read.Some? then [read.value] else []) + [token]
    requires ItemOk(ElemNode(p.elem).cmd, item)
    ensures PartialOk(p') && p' == Within(p.prefix, p.elem.(items := p.elem.items + [item]), None)
    ensures ElemNode(p'.elem) == Run(WithItem(ElemNode(p.elem).cmd, item))
    ensures PartialTokens(p') == PartialTokens(p) + [token]
  {
    hide ItemOk, WithItem, ItemTokens, AssignsTokens, PrefixTokens, EnvOf, AssignsOk, AllJoinedOk, IsCommandName;
    var Simple(assigns, name, items) := p.elem;
    OneMoreItem(NewCommand(name, EnvOf(assigns)), items, item);
    p' := Within(p.prefix, Simple(assigns, name, items + [item]), None);
    assert (items + [item])[..|items|] == items;
    var t, u, i := PrefixTokens(p.prefix), AssignsTokens(assigns) + [name], ItemsTokens(items);
    var r := if read.Some? then [read.value] else [];
    assert t + (u + (i + (r + [token]))) + [] == t + (u + i) + r + [token];
  }

  lemma OpRead(p: Partial, op: Node) returns (p': Partial)
    requires PartialOk(p) && p.Within? && p.pending.None? && JoinedOk(Joined(p.elem, op))
    ensures PartialOk(p') && PartialState(p') == State(BEGIN, None, map[],
              PrefixNodes(p.prefix) + [PipedIf(ElemNode(p.elem), op), op])
    ensures PartialTokens(p') == PartialTokens(p) + [OpToken(op)]
  {
    hide JoinedOk, ElemTokens, ElemNode, PipedIf, OpToken;
    var prefix := p.prefix + [Joined(p.elem, op)];
    assert prefix[..|p.prefix|] == p.prefix;
    p' := Between(prefix, []);
    var t, u := PrefixTokens(p.prefix), ElemTokens(p.elem);
    assert t + u + [OpToken(op)] + [] == t + u + [] + [OpToken(op)];
  }

  lemma RedirectionBegun(p: Partial, token: string) returns (p': Partial)
    requires PartialOk(p) && p.Within? && p.elem.Simple? && p.pending.None? && IsRedirection(token)
    ensures PartialOk(p') && p' == p.(pending := Some(token)) && PartialTokens(p') == PartialTokens(p) + [token]
  {
    hide ElemTokens, ElemOk, PrefixTokens, AllJoinedOk;
    p' := p.(pending := Some(token));
  }

  lemma CommandRead(p: Partial, token: string) returns (p': Partial)
    requires PartialOk(p) && p.Within? && p.elem.Simple? && p.pending.None? && ModeFitsCurrent(PartialState(p))
    requires Step(PartialState(p), token).Ok?
    ensures PartialOk(p') && Step(PartialState(p), token) == Ok(PartialState(p'))
    ensures PartialTokens(p') == PartialTokens(p) + [token]
  {
    hide WithItems, ItemsOk, PrefixNodes, PartialTokens, EnvOf, AllJoinedOk;
    if IsRedirection(token) {
      p' := RedirectionBegun(p, token);
    } else if token == "2>&1" {
      p' := ItemRead(p, ErrToOut, None, token);
    } else if token == "|" {
      p' := OpRead(p, Pipe);
    } else if token == "&&" {
      p' := OpRead(p, And);
    } else if token == "||" {
      p' := OpRead(p, Or);
    } else {
      p' := ItemRead(p, Arg(token), None, token);
    }
  }

  lemma FileRead(p: Partial, token: string) returns (p': Partial)
    requires PartialOk(p) && p.Within? && p.pending.Some? && ModeFitsCurrent(PartialState(p))
    requires Step(PartialState(p), token).Ok?
    ensures PartialOk(p') && Step(PartialState(p), token) == Ok(PartialState(p'))
    ensures PartialTokens(p') == PartialTokens(p) + [token]
  {
    hide WithItems, ItemsOk, PrefixNodes, PartialTokens, EnvOf, AllJoinedOk;
    var sign := p.pending.value;
    var item := if sign == ">" then To(token) else if sign == "2>" then ErrTo(token) else From(token);
    p' := ItemRead(p, item, p.pending, token);
  }

  lemma DirectoryRead(p: Partial, token: string) returns (p': Partial)
    requires PartialOk(p) && p.Within? && p.elem.Cd? && ModeFitsCurrent(PartialState(p))
    requires Step(PartialState(p), token).Ok?
    ensures PartialOk(p') && Step(PartialState(p), token) == Ok(PartialState(p'))
    ensures PartialTokens(p') == PartialTokens(p) + [token]
  {
    hide PrefixNodes, PrefixTokens, AllJoinedOk;
    if token == "&&" {
      p' := OpRead(p, And);
    } else {
      p' := Within(p.prefix, Cd(Some(token)), None);
      var t := PrefixTokens(p.prefix);
      assert t + ["cd", token] + [] == t + ["cd"] + [] + [token];
    }
  }

  lemma TokenRead(p: Partial, token: string) returns (p': Partial)
    requires PartialOk(p) && ModeFitsCurrent(PartialState(p)) && Step(PartialState(p), token).Ok?
    ensures PartialOk(p') && Step(PartialState(p), token) == Ok(PartialState(p'))
    ensures PartialTokens(p') == PartialTokens(p) + [token]
  {
    hide Step, PartialState, PartialTokens, EnvMatch;
    if p.Between? && EnvMatch(token).Some? {
      p' := AssignRead(p, token);
    } else if p.Between? {
      p' := CommandBegun(p, token);
    } else if p.pending.Some? {
      p' := FileRead(p, token);
    } else if p.elem.Cd? {
      p' := DirectoryRead(p, token);
    } else {
      p' := CommandRead(p, token);
    }
  }

  // ---------------------------------------------------------------- all tokens

  lemma {:induction false} Explained(tokens: seq<string>) returns (p: Partial)
    requires Steps(START, tokens).Ok?
    ensures PartialOk(p) && PartialTokens(p) == tokens && Steps(START, tokens) == Ok(PartialState(p))
  {
    hide Step;
    if tokens == [] {
      p := Between([], []);
    } else {
      hide PartialState, PartialTokens, PartialOk;
      var n := |tokens| - 1;
      var init, token := tokens[..n], tokens[n];
      assert tokens == init + [token];
      StepsPrefix(START, init, [token]);
      var q := Explained(init);
      PartialFits(q);
      StepsConcat(START, init, [token]);
      StepsOne(PartialState(q), token);
      p := TokenRead(q, token);
    }
  }

  lemma {:induction false} StepsPrefix(st: State, a: seq<string>, b: seq<string>)
    requires ModeFitsCurrent(st) && Steps(st, a + b).Ok?
    ensures Steps(st, a).Ok?
    decreases |a|
  {
    hide Step;
    if a != [] {
      assert (a + b)[0] == a[0] && (a + b)[1..] == a[1..] + b;
      StepsPrefix(Step(st, a[0]).value, a[1..], b);
    }
  }

  /** What the parser accepts it reads as a well-formed line that is printed with exactly these tokens. */
  lemma AcceptedIsPrinted(tokens: seq<string>) returns (line: Line)
    requires Parsed(tokens).Ok?
    ensures LineOk(line) && Print(line) == tokens && Parsed(tokens) == Ok(Denote(line))
  {
    hide Steps, PrefixTokens, ElemTokens, AllJoinedOk, ElemOk, ElemNode, PrefixNodes;
    var p := Explained(tokens);
    line := Line(p.prefix, p.elem, p.pending);
  }

  /** So a token list is accepted, with this result, iff it is the printed form of a well-formed line that means it. */
  lemma AcceptsExactlyLines(tokens: seq<string>, nodes: seq<Node>)
    ensures Parsed(tokens) == Ok(nodes)
            <==> exists line :: LineOk(line) && Print(line) == tokens && Denote(line) == nodes
  {
    hide Parsed, LineOk, Print, Denote;
    if Parsed(tokens) == Ok(nodes) {
      var line := AcceptedIsPrinted(tokens);
    }
    if line :| LineOk(line) && Print(line) == tokens && Denote(line) == nodes {
      PrintParses(line);
    }
  }
}
