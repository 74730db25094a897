/** A printer for shell lines, and which node lists the parser can produce. */
module ShellGrammar {
  import opened Wrappers
  import opened Sequences
  import opened ShellParser

  datatype Item =
    | Arg(text: string)
    | To(file: string)
    | ErrTo(file: string)
    | ErrToOut
    | From(file: string)

  /** An assignment, and whether its token ends in a newline, which is not part of the value. */
  datatype Assign = Assign(name: string, value: string, newline: bool)

  datatype Elem =
    | Simple(assigns: seq<Assign>, name: string, items: seq<Item>)
    | Cd(dir: Option<string>)

  datatype Joined = Joined(elem: Elem, op: Node)

  /** Commands, each followed by an operator, and a last command, maybe with a redirection that lacks its file. */
  datatype Line = Line(prefix: seq<Joined>, last: Elem, dangling: Option<string>)

  // ---------------------------------------------------------------- printing

  function ItemTokens(item: Item): seq<string> {
    match item
    case Arg(text) => [text]
    case To(file) => [">", file]
    case ErrTo(file) => ["2>", file]
    case ErrToOut => ["2>&1"]
    case From(file) => ["<", file]
  }

  function ItemsTokens(items: seq<Item>): seq<string> {
    if items == [] then [] else ItemsTokens(items[..|items| - 1]) + ItemTokens(items[|items| - 1])
  }

  function AssignToken(assign: Assign): string {
    assign.name + "=" + assign.value + if assign.newline then "\n" else ""
  }

  function AssignsTokens(assigns: seq<Assign>): seq<string> {
    if assigns == [] then []
    else AssignsTokens(assigns[..|assigns| - 1]) + [AssignToken(assigns[|assigns| - 1])]
  }

  function ElemTokens(elem: Elem): seq<string> {
    match elem
    case Simple(assigns, name, items) => AssignsTokens(assigns) + [name] + ItemsTokens(items)
    case Cd(dir) => if dir.Some? then ["cd", dir.value] else ["cd"]
  }

  function OpToken(op: Node): string {
    if op == Pipe then "|" else if op == And then "&&" else "||"
  }

  function PrefixTokens(prefix: seq<Joined>): seq<string> {
    if prefix == [] then []
    else
      var last := prefix[|prefix| - 1];
      PrefixTokens(prefix[..|prefix| - 1]) + ElemTokens(last.elem) + [OpToken(last.op)]
  }

  function Print(line: Line): seq<string> {
    PrefixTokens(line.prefix) + ElemTokens(line.last) + if line.dangling.Some? then [line.dangling.value] else []
  }

  // ---------------------------------------------------------------- meaning

  /** The later of two assignments to the same variable wins. */
  function EnvOf(assigns: seq<Assign>): map<string, string> {
    if assigns == [] then map[]
    else
      var last := assigns[|assigns| - 1];
      EnvOf(assigns[..|assigns| - 1])[last.name := last.value]
  }

  function WithItem(cmd: Command, item: Item): Command {
    match item
    case Arg(text) => cmd.(argv := cmd.argv + [text])
    case To(file) => cmd.(stdout := File(file))
    case ErrTo(file) => cmd.(stderr := File(file))
    case ErrToOut => cmd.(stderr := SameAsOutput)
    case From(file) => cmd.(stdin := Some(file))
  }

  function WithItems(cmd: Command, items: seq<Item>): Command {
    if items == [] then cmd else WithItem(WithItems(cmd, items[..|items| - 1]), items[|items| - 1])
  }

  function ElemNode(elem: Elem): Node {
    match elem
    case Simple(assigns, name, items) => Run(WithItems(NewCommand(name, EnvOf(assigns)), items))
    case Cd(dir) => Chdir(dir)
  }

  function PipedIf(node: Node, op: Node): Node {
    if op == Pipe && node.Run? then Run(node.cmd.(stdout := Piped)) else node
  }

  function PrefixNodes(prefix: seq<Joined>): seq<Node> {
    if prefix == [] then []
    else
      var last := prefix[|prefix| - 1];
      PrefixNodes(prefix[..|prefix| - 1]) + [PipedIf(ElemNode(last.elem), last.op), last.op]
  }

  function Denote(line: Line): seq<Node> {
    PrefixNodes(line.prefix) + [ElemNode(line.last)]
  }

  // ---------------------------------------------------------------- well-formed lines

  predicate IsOperator(token: string) {
    token == ">" || token == "2>" || token == "2>&1" || token == "<" || token == "|" || token == "&&" || token == "||"
  }

  /** Each stream can be redirected at most once. */
  predicate ItemOk(cmd: Command, item: Item) {
    match item
    case Arg(text) => !IsOperator(text)
    case To(_) => cmd.stdout == Inherited
    case ErrTo(_) => cmd.stderr == Inherited
    case ErrToOut => cmd.stderr == Inherited
    case From(_) => cmd.stdin == None
  }

  predicate ItemsOk(cmd: Command, items: seq<Item>) {
    items != [] ==>
      ItemsOk(cmd, items[..|items| - 1]) && ItemOk(WithItems(cmd, items[..|items| - 1]), items[|items| - 1])
  }

  predicate IsCommandName(name: string) {
    EnvMatch(name).None? && name != "cd"
  }

  predicate AssignOk(name: string, value: string) {
    IsWord(name) && IsSolid(value)
  }

  predicate AssignsOk(assigns: seq<Assign>) {
    forall k :: 0 <= k < |assigns| ==> AssignOk(assigns[k].name, assigns[k].value)
  }

  predicate ElemOk(elem: Elem) {
    match elem
    case Simple(assigns, name, items) =>
      && AssignsOk(assigns)
      && IsCommandName(name)
      && ItemsOk(NewCommand(name, EnvOf(assigns)), items)
    case Cd(dir) => dir != Some("&&")
  }

  predicate IsOp(op: Node) {
    op == Pipe || op == And || op == Or
  }

  predicate JoinedOk(j: Joined) {
    && ElemOk(j.elem) && IsOp(j.op)
    && (j.elem.Cd? ==> j.op == And)
    && (j.op == Pipe && ElemNode(j.elem).Run? ==> ElemNode(j.elem).cmd.stdout == Inherited)
  }

  predicate AllJoinedOk(prefix: seq<Joined>) {
    forall k :: 0 <= k < |prefix| ==> JoinedOk(prefix[k])
  }

  predicate LineOk(line: Line) {
    && AllJoinedOk(line.prefix) && ElemOk(line.last)
    && (line.dangling.Some? ==> line.last.Simple? && IsRedirection(line.dangling.value))
  }

  predicate IsRedirection(token: string) {
    token == ">" || token == "2>" || token == "<"
  }

  // ---------------------------------------------------------------- parsing undoes printing

  lemma {:induction false} StepsConcat(st: State, a: seq<string>, b: seq<string>)
    requires ModeFitsCurrent(st) && Steps(st, a).Ok?
    ensures Steps(st, a + b) == Steps(Steps(st, a).value, b)
    decreases |a|
  {
    hide Step;
    if a == [] {
      assert a + b == b;
    } else {
      StepsConcat(Step(st, a[0]).value, a[1..], b);
      assert (a + b)[0] == a[0] && (a + b)[1..] == a[1..] + b;
    }
  }

  lemma StepsOne(st: State, token: string)
    requires ModeFitsCurrent(st)
    ensures Steps(st, [token]) == Step(st, token)
  {
    var next := Step(st, token);
    assert next.Ok? ==> Steps(next.value, []) == next;
  }

  lemma StepsTwo(st: State, first: string, second: string)
    requires ModeFitsCurrent(st) && Step(st, first).Ok?
    ensures Steps(st, [first, second]) == Step(Step(st, first).value, second)
  {
    StepsOne(Step(st, first).value, second);
    assert [first, second][1..] == [second];
  }

  lemma {:induction false} AssignsParse(assigns: seq<Assign>, p: seq<Node>)
    requires AssignsOk(assigns)
    ensures Steps(State(BEGIN, None, map[], p), AssignsTokens(assigns)) == Ok(State(BEGIN, None, EnvOf(assigns), p))
  {
    if assigns != [] {
      var n := |assigns| - 1;
      var token := AssignToken(assigns[n]);
      AssignsParse(assigns[..n], p);
      StepsConcat(State(BEGIN, None, map[], p), AssignsTokens(assigns[..n]), [token]);
      StepsOne(State(BEGIN, None, EnvOf(assigns[..n]), p), token);
      EnvMatchReadsBack(assigns[n].name, assigns[n].value, assigns[n].newline);
    }
  }

  lemma ItemParses(cmd: Command, item: Item, p: seq<Node>)
    requires ItemOk(cmd, item)
    ensures Steps(State(COMMAND, Some(Run(cmd)), map[], p), ItemTokens(item))
            == Ok(State(COMMAND, Some(Run(WithItem(cmd, item))), map[], p))
  {
    var st := State(COMMAND, Some(Run(cmd)), map[], p);
    match item
    case Arg(text) => StepsOne(st, text);
    case To(file) => StepsTwo(st, ">", file);
    case ErrTo(file) => StepsTwo(st, "2>", file);
    case ErrToOut => StepsOne(st, "2>&1");
    case From(file) => StepsTwo(st, "<", file);
  }

  lemma {:induction false} ItemsParse(cmd: Command, items: seq<Item>, p: seq<Node>)
    requires ItemsOk(cmd, items)
    ensures Steps(State(COMMAND, Some(Run(cmd)), map[], p), ItemsTokens(items))
            == Ok(State(COMMAND, Some(Run(WithItems(cmd, items))), map[], p))
  {
    if items != [] {
      var init, last := items[..|items| - 1], items[|items| - 1];
      ItemsParse(cmd, init, p);
      StepsConcat(State(COMMAND, Some(Run(cmd)), map[], p), ItemsTokens(init), ItemTokens(last));
      ItemParses(WithItems(cmd, init), last, p);
    }
  }

  function ModeOf(elem: Elem): Mode {
    if elem.Cd? then CHDIR else COMMAND
  }

  lemma ElemParses(elem: Elem, p: seq<Node>)
    requires ElemOk(elem)
    ensures Steps(State(BEGIN, None, map[], p), ElemTokens(elem))
            == Ok(State(ModeOf(elem), Some(ElemNode(elem)), map[], p))
  {
    hide Step, Steps, ItemsOk, ItemsTokens, AssignsTokens, EnvOf, WithItems, IsCommandName;
    match elem
    case Cd(dir) => CdParses(dir, p);
    case Simple(assigns, name, items) =>
      var st, env := State(BEGIN, None, map[], p), EnvOf(assigns);
      AssignsParse(assigns, p);
      StepsConcat(st, AssignsTokens(assigns), [name] + ItemsTokens(items));
      NameParses(name, env, p);
      StepsConcat(State(BEGIN, None, env, p), [name], ItemsTokens(items));
      ItemsParse(NewCommand(name, env), items, p);
      assert ElemTokens(elem) == AssignsTokens(assigns) + ([name] + ItemsTokens(items));
  }

  lemma NameParses(name: string, env: map<string, string>, p: seq<Node>)
    requires IsCommandName(name)
    ensures Steps(State(BEGIN, None, env, p), [name]) == Ok(State(COMMAND, Some(Run(NewCommand(name, env))), map[], p))
  {
    StepsOne(State(BEGIN, None, env, p), name);
  }

  lemma CdParses(dir: Option<string>, p: seq<Node>)
    requires dir != Some("&&")
    ensures Steps(State(BEGIN, None, map[], p), ElemTokens(Cd(dir))) == Ok(State(CHDIR, Some(Chdir(dir)), map[], p))
  {
    var st := State(BEGIN, None, map[], p);
    assert IndexOf("cd", '=') == 2;
    assert Step(st, "cd") == Ok(State(CHDIR, Some(Chdir(None)), map[], p));
    if dir.Some? {
      StepsTwo(st, "cd", dir.value);
    } else {
      StepsOne(st, "cd");
    }
  }

  lemma OpParses(j: Joined, p: seq<Node>)
    requires JoinedOk(j)
    ensures Step(State(ModeOf(j.elem), Some(ElemNode(j.elem)), map[], p), OpToken(j.op))
            == Ok(State(BEGIN, None, map[], p + [PipedIf(ElemNode(j.elem), j.op), j.op]))
  {
    hide WithItems;
  }

  lemma {:induction false} PrefixParses(prefix: seq<Joined>)
    requires AllJoinedOk(prefix)
    ensures Steps(START, PrefixTokens(prefix)) == Ok(State(BEGIN, None, map[], PrefixNodes(prefix)))
  {
    hide Step, JoinedOk, ElemTokens, ElemNode;
    if prefix != [] {
      var init, last := prefix[..|prefix| - 1], prefix[|prefix| - 1];
      var p := PrefixNodes(init);
      PrefixParses(init);
      JoinedParts(last);
      StepsConcat(START, PrefixTokens(init), ElemTokens(last.elem) + [OpToken(last.op)]);
      ElemParses(last.elem, p);
      StepsConcat(State(BEGIN, None, map[], p), ElemTokens(last.elem), [OpToken(last.op)]);
      StepsOne(State(ModeOf(last.elem), Some(ElemNode(last.elem)), map[], p), OpToken(last.op));
      OpParses(last, p);
      assert PrefixTokens(prefix) == PrefixTokens(init) + (ElemTokens(last.elem) + [OpToken(last.op)]);
    }
  }

  lemma JoinedParts(j: Joined)
    requires JoinedOk(j)
    ensures ElemOk(j.elem)
    ensures ModeFitsCurrent(State(ModeOf(j.elem), Some(ElemNode(j.elem)), map[], []))
  {
  }

  /** Printing a line and parsing it gives its nodes. */
  lemma PrintParses(line: Line)
    requires LineOk(line)
    ensures Parsed(Print(line)) == Ok(Denote(line))
  {
    hide Step, ElemTokens, ElemNode, JoinedOk;
    var p := PrefixNodes(line.prefix);
    var elem, tail := ElemTokens(line.last), if line.dangling.Some? then [line.dangling.value] else [];
    PrefixParses(line.prefix);
    StepsConcat(START, PrefixTokens(line.prefix), elem + tail);
    ElemParses(line.last, p);
    StepsConcat(State(BEGIN, None, map[], p), elem, tail);
    DanglingParses(line.last, line.dangling, p);
    assert Print(line) == PrefixTokens(line.prefix) + (elem + tail);
  }

  /** A redirection without its file changes only the parser's mode. */
  lemma DanglingParses(elem: Elem, dangling: Option<string>, p: seq<Node>)
    requires dangling.Some? ==> elem.Simple? && IsRedirection(dangling.value)
    ensures var st := State(ModeOf(elem), Some(ElemNode(elem)), map[], p);
            var r := Steps(st, if dangling.Some? then [dangling.value] else []);
            r.Ok? && r.value.current == st.current && r.value.pipeline == p
  {
    hide WithItems;
    if dangling.Some? {
      StepsOne(State(COMMAND, Some(ElemNode(elem)), map[], p), dangling.value);
    }
  }

  // ---------------------------------------------------------------- what the parser can produce

  ghost predicate EnvOk(env: map<string, string>) {
    forall name :: name in env ==> AssignOk(name, env[name])
  }

  /** A command as the parser leaves it, its output possibly piped. */
  ghost predicate CommandOk(cmd: Command) {
    && cmd.argv != [] && cmd.argv[0] == cmd.name && IsCommandName(cmd.name)
    && (forall k :: 1 <= k < |cmd.argv| ==> !IsOperator(cmd.argv[k]))
    && EnvOk(cmd.env)
    && cmd.stdout != SameAsOutput && cmd.stderr != Piped
  }

  ghost predicate NodeOk(node: Node) {
    match node
    case Run(cmd) => CommandOk(cmd)
    case Chdir(dir) => dir != Some("&&")
    case _ => false
  }

  /** The output of a command is piped exactly when a pipe follows; only && can follow a change of directory. */
  ghost predicate PairOk(node: Node, op: Node) {
    && NodeOk(node) && IsOp(op)
    && (node.Chdir? ==> op == And)
    && (node.Run? ==> (node.cmd.stdout == Piped <==> op == Pipe))
  }

  ghost predicate PairsOk(p: seq<Node>) {
    p != [] ==> |p| >= 2 && PairsOk(p[..|p| - 2]) && PairOk(p[|p| - 2], p[|p| - 1])
  }

  /** Nodes and operators alternate. */
  ghost predicate WellFormed(nodes: seq<Node>) {
    && nodes != [] && PairsOk(nodes[..|nodes| - 1]) && NodeOk(nodes[|nodes| - 1])
    && (nodes[|nodes| - 1].Run? ==> nodes[|nodes| - 1].cmd.stdout != Piped)
  }

  ghost predicate StateOk(st: State) {
    && ModeFitsCurrent(st) && EnvOk(st.env) && PairsOk(st.pipeline)
    && (st.mode != BEGIN ==>
          && st.env == map[] && NodeOk(st.current.value)
          && (st.current.value.Run? ==> st.current.value.cmd.stdout != Piped))
  }

  lemma EnvMatchIsOk(token: string)
    ensures EnvMatch(token).Some? ==> AssignOk(EnvMatch(token).value.0, EnvMatch(token).value.1)
  {
  }

  lemma CommittedOk(st: State, op: Node)
    requires ModeFitsCurrent(st) && st.current.Some? && st.env == map[] && PairsOk(st.pipeline)
    requires PairOk(st.current.value, op)
    ensures StateOk(Committed(st, op))
  {
    assert Committed(st, op).pipeline[..|st.pipeline|] == st.pipeline;
  }

  lemma StepKeepsOk(st: State, token: string)
    requires StateOk(st) && Step(st, token).Ok?
    ensures StateOk(Step(st, token).value)
  {
    hide PairsOk, IsOperator, EnvMatch, AssignOk;
    EnvMatchIsOk(token);
    match st.mode
    case COMMAND =>
      var cmd := st.current.value.cmd;
      ArgOk(token);
      if token == "|" {
        CommittedOk(WithCommand(st, COMMAND, cmd.(stdout := Piped)), Pipe);
      } else if token == "&&" {
        CommittedOk(st, And);
      } else if token == "||" {
        CommittedOk(st, Or);
      }
    case CHDIR =>
      if token == "&&" {
        CommittedOk(st, And);
      }
    case _ =>
  }

  lemma ArgOk(token: string)
    ensures IsOperator(token) || (token != ">" && token != "2>" && token != "2>&1" && token != "<" && token != "|"
                                  && token != "&&" && token != "||")
    ensures IsOperator(token) ==> token == ">" || token == "2>" || token == "2>&1" || token == "<" || token == "|"
                                  || token == "&&" || token == "||"
  {
  }

  lemma {:induction false} StepsKeepOk(st: State, tokens: seq<string>)
    requires StateOk(st) && Steps(st, tokens).Ok?
    ensures StateOk(Steps(st, tokens).value)
    decreases |tokens|
  {
    hide StateOk, Step;
    if tokens != [] {
      StateOkFits(st);
      StepKeepsOk(st, tokens[0]);
      StepsKeepOk(Step(st, tokens[0]).value, tokens[1..]);
    }
  }

  lemma StateOkFits(st: State)
    requires StateOk(st)
    ensures ModeFitsCurrent(st)
  {
  }

  /** Whatever the tokens, a result is a well-formed alternating list. */
  lemma ParsedIsWellFormed(tokens: seq<string>)
    requires Parsed(tokens).Ok?
    ensures WellFormed(Parsed(tokens).value)
  {
    hide Steps, Step, PairsOk, CommandOk, EnvOk;
    StartIsOk();
    StepsKeepOk(START, tokens);
    var st := Steps(START, tokens).value;
    assert (st.pipeline + [st.current.value])[..|st.pipeline|] == st.pipeline;
  }

  lemma StartIsOk()
    ensures StateOk(START)
  {
  }

  /** Well-formedness read from the front. */
  ghost predicate FrontOk(nodes: seq<Node>) {
    && nodes != [] && NodeOk(nodes[0])
    && if |nodes| == 1 then nodes[0].Run? ==> nodes[0].cmd.stdout != Piped
       else PairOk(nodes[0], nodes[1]) && FrontOk(nodes[2..])
  }

  lemma {:induction false} PairsTail(p: seq<Node>)
    requires PairsOk(p) && p != []
    ensures |p| >= 2 && PairOk(p[0], p[1]) && PairsOk(p[2..])
    decreases |p|
  {
    hide PairOk;
    var n := |p| - 2;
    if n > 0 {
      PairsTail(p[..n]);
      assert p[2..][..n - 2] == p[..n][2..];
    }
  }

  lemma {:induction false} WellFormedFront(nodes: seq<Node>)
    requires WellFormed(nodes)
    ensures FrontOk(nodes)
    decreases |nodes|
  {
    hide NodeOk, PairOk, PairsOk;
    PairHasNode();
    if |nodes| > 1 {
      PairsTail(nodes[..|nodes| - 1]);
      assert nodes[2..][..|nodes| - 3] == nodes[..|nodes| - 1][2..];
      WellFormedFront(nodes[2..]);
    }
  }

  lemma PairHasNode()
    ensures forall node, op :: PairOk(node, op) ==> NodeOk(node)
  {
  }

  lemma NodeKinds(node: Node)
    requires NodeOk(node)
    ensures node.Run? || node.Chdir?
  {
  }

  // ---------------------------------------------------------------- a line for each well-formed list

  ghost function AssignsOf(env: map<string, string>): (a: seq<Assign>)
    requires EnvOk(env)
    ensures EnvOf(a) == env && AssignsOk(a)
    decreases |env|
  {
    if env == map[] then []
    else
      assert |env.Keys| > 0;
      var name :| name in env;
      OneMoreAssign(AssignsOf(env - {name}), env, name);
      AssignsOf(env - {name}) + [Assign(name, env[name], false)]
  }

  lemma OneMoreAssign(a: seq<Assign>, env: map<string, string>, name: string)
    requires EnvOk(env) && name in env && EnvOf(a) == env - {name} && AssignsOk(a)
    ensures EnvOf(a + [Assign(name, env[name], false)]) == env && AssignsOk(a + [Assign(name, env[name], false)])
  {
    hide AssignOk;
    var more := a + [Assign(name, env[name], false)];
    assert more[..|a|] == a;
    assert (env - {name})[name := env[name]] == env;
  }

  function Args(argv: seq<string>): seq<Item> {
    if |argv| <= 1 then [] else Args(argv[..|argv| - 1]) + [Arg(argv[|argv| - 1])]
  }

  lemma {:induction false} ArgsGiveArgv(cmd: Command, argv: seq<string>)
    requires argv != [] && cmd.argv == [argv[0]]
    requires forall k :: 1 <= k < |argv| ==> !IsOperator(argv[k])
    ensures ItemsOk(cmd, Args(argv)) && WithItems(cmd, Args(argv)) == cmd.(argv := argv)
  {
    hide IsOperator;
    if |argv| > 1 {
      var init := argv[..|argv| - 1];
      ArgsGiveArgv(cmd, init);
      OneMoreItem(cmd, Args(init), Arg(argv[|argv| - 1]));
      assert argv == init + [argv[|argv| - 1]];
    }
  }

  lemma OneMoreItem(cmd: Command, items: seq<Item>, item: Item)
    ensures WithItems(cmd, items + [item]) == WithItem(WithItems(cmd, items), item)
    ensures ItemsOk(cmd, items + [item]) <==> ItemsOk(cmd, items) && ItemOk(WithItems(cmd, items), item)
  {
    assert (items + [item])[..|items|] == items;
  }

  /** A command line for a command whose output is not piped. */
  lemma CommandLine(cmd: Command) returns (elem: Elem)
    requires CommandOk(cmd) && cmd.stdout != Piped
    ensures ElemOk(elem) && ElemNode(elem) == Run(cmd)
  {
    hide ItemsOk, WithItems, IsOperator, Args;
    var bare := NewCommand(cmd.name, cmd.env);
    var items := Args(cmd.argv);
    ArgsGiveArgv(bare, cmd.argv);
    if cmd.stdin.Some? {
      OneMoreItem(bare, items, From(cmd.stdin.value));
      items := items + [From(cmd.stdin.value)];
    }
    if cmd.stdout.File? {
      OneMoreItem(bare, items, To(cmd.stdout.name));
      items := items + [To(cmd.stdout.name)];
    }
    if cmd.stderr != Inherited {
      var item := if cmd.stderr.File? then ErrTo(cmd.stderr.name) else ErrToOut;
      OneMoreItem(bare, items, item);
      items := items + [item];
    }
    elem := Simple(AssignsOf(cmd.env), cmd.name, items);
  }

  lemma PairLine(node: Node, op: Node) returns (j: Joined)
    requires PairOk(node, op)
    ensures JoinedOk(j) && j.op == op && PipedIf(ElemNode(j.elem), op) == node
  {
    hide ItemsOk, WithItems, IsOperator;
    if node.Chdir? {
      j := Joined(Cd(node.dir), op);
    } else {
      var plain := if op == Pipe then node.cmd.(stdout := Inherited) else node.cmd;
      var elem := CommandLine(plain);
      j := Joined(elem, op);
    }
  }

  lemma {:induction false} PairsLine(p: seq<Node>) returns (prefix: seq<Joined>)
    requires PairsOk(p)
    ensures PrefixNodes(prefix) == p && AllJoinedOk(prefix)
  {
    hide JoinedOk, PairOk, PrefixNodes, AllJoinedOk;
    if p == [] {
      prefix := [];
      NoJoined();
    } else {
      var n := |p| - 2;
      var init := PairsLine(p[..n]);
      var j := PairLine(p[n], p[n + 1]);
      prefix := init + [j];
      OneMoreJoined(init, j);
      assert p == p[..n] + [p[n], p[n + 1]];
    }
  }

  lemma NoJoined()
    ensures PrefixNodes([]) == [] && AllJoinedOk([])
  {
  }

  lemma OneMoreJoined(init: seq<Joined>, j: Joined)
    requires AllJoinedOk(init) && JoinedOk(j)
    ensures AllJoinedOk(init + [j])
    ensures PrefixNodes(init + [j]) == PrefixNodes(init) + [PipedIf(ElemNode(j.elem), j.op), j.op]
  {
    assert (init + [j])[..|init|] == init;
  }

  lemma LastLine(node: Node) returns (elem: Elem)
    requires NodeOk(node) && (node.Run? ==> node.cmd.stdout != Piped)
    ensures ElemOk(elem) && ElemNode(elem) == node
  {
    if node.Chdir? {
      elem := Cd(node.dir);
    } else {
      elem := CommandLine(node.cmd);
    }
  }

  lemma LineFor(nodes: seq<Node>) returns (line: Line)
    requires WellFormed(nodes)
    ensures LineOk(line) && Denote(line) == nodes
  {
    hide PairOk, AllJoinedOk, ElemNode, PrefixNodes, PairsOk;
    var n := |nodes| - 1;
    var prefix := PairsLine(nodes[..n]);
    var last := LastLine(nodes[n]);
    line := Line(prefix, last, None);
  }

  /** The parser's results are exactly the well-formed lists, and each is the parse of some printed line. */
  lemma ResultsAreWellFormed(nodes: seq<Node>)
    ensures (exists tokens :: Parsed(tokens) == Ok(nodes)) <==> WellFormed(nodes)
    ensures WellFormed(nodes) ==> exists line :: LineOk(line) && Denote(line) == nodes
  {
    hide WellFormed, Parsed, LineOk, Denote, Print;
    if tokens :| Parsed(tokens) == Ok(nodes) {
      ParsedIsWellFormed(tokens);
    }
    if WellFormed(nodes) {
      var line := LineFor(nodes);
      PrintParses(line);
    }
  }
}
