/** The token state machine of the mini shell, and the language of its results. */
module ShellParser {
  import opened Wrappers
  import opened Sequences
  import opened Strings

  /** What a standard stream of a command is connected to. */
  datatype Stream = Inherited | Piped | SameAsOutput | File(name: string)

  datatype Command = Command(
    name: string, argv: seq<string>, stdin: Option<string>, stdout: Stream, stderr: Stream, env: map<string, string>)

  datatype Node =
    | Run(cmd: Command)
    | Chdir(dir: Option<string>)
    | Pipe
    | And
    | Or

  datatype Mode = BEGIN | COMMAND | CHDIR | STDERR | STDOUT | STDIN

  /** The parser's variables between two tokens; an empty environment stands for none. */
  datatype State = State(mode: Mode, current: Option<Node>, env: map<string, string>, pipeline: seq<Node>)

  // ---------------------------------------------------------------- environment prefixes

  predicate IsWordChar(c: char) {
    'a' <= c <= 'z' || 'A' <= c <= 'Z' || '0' <= c <= '9' || c == '_'
  }

  predicate IsSpace(c: char) {
    c == ' ' || '\t' <= c <= '\r'
  }

  predicate IsWord(s: string) {
    s != [] && forall k :: 0 <= k < |s| ==> IsWordChar(s[k])
  }

  predicate IsSolid(s: string) {
    s != [] && forall k :: 0 <= k < |s| ==> !IsSpace(s[k])
  }

  /** Matches NAME=VALUE. */
  function EnvMatch(token: string): Option<(string, string)> {
    var k := IndexOf(token, '=');
    if k == |token| then None
    else
      var value := DropNewline(token[k + 1..]);
      if IsWord(token[..k]) && IsSolid(value) then Some((token[..k], value)) else None
  }

  lemma EnvMatchReadsBack(name: string, value: string, newline: bool)
    requires IsWord(name) && IsSolid(value)
    ensures EnvMatch(name + "=" + value + if newline then "\n" else "") == Some((name, value))
  {
    hide IsWord, IsSolid;
    var end := if newline then "\n" else "";
    var token := name + "=" + value + end;
    NameIsFirst(name, value + end);
    EndDropped(value, newline);
    assert token == name + "=" + (value + end);
  }

  lemma NameIsFirst(name: string, rest: string)
    requires IsWord(name)
    ensures var token := name + "=" + rest;
            IndexOf(token, '=') == |name| && token[..|name|] == name && token[|name| + 1..] == rest
  {
    IndexIs(name + "=" + rest, '=', |name|);
  }

  lemma EndDropped(value: string, newline: bool)
    requires IsSolid(value)
    ensures DropNewline(value + if newline then "\n" else "") == value
  {
    if newline {
      assert (value + "\n")[..|value|] == value;
    } else {
      assert value + "" == value && !IsSpace(value[|value| - 1]);
    }
  }

  /** Nothing else is matched as that assignment. */
  lemma EnvMatchSpelling(token: string)
    requires EnvMatch(token).Some?
    ensures var (name, value) := EnvMatch(token).value;
            IsWord(name) && IsSolid(value) && (token == name + "=" + value || token == name + "=" + value + "\n")
  {
    var k := IndexOf(token, '=');
    var name, value, rest := token[..k], EnvMatch(token).value.1, token[k + 1..];
    assert token == name + "=" + rest;
    if rest != value {
      assert rest == value + "\n";
      assert name + "=" + rest == name + "=" + value + "\n";
    }
  }

  // ---------------------------------------------------------------- one token

  function NewCommand(name: string, env: map<string, string>): Command {
    Command(name, [name], None, Inherited, Inherited, env)
  }

  function Committed(st: State, op: Node): State
    requires st.current.Some?
  {
    State(BEGIN, None, st.env, st.pipeline + [st.current.value, op])
  }

  function WithCommand(st: State, mode: Mode, cmd: Command): State {
    st.(mode := mode, current := Some(Run(cmd)))
  }

  predicate ModeFitsCurrent(st: State) {
    match st.mode
    case BEGIN => st.current.None?
    case CHDIR => st.current.Some? && st.current.value.Chdir?
    case _ => st.current.Some? && st.current.value.Run?
  }

  function BeginToken(st: State, token: string): Result<State> {
    var env := EnvMatch(token);
    if env.Some? then Ok(st.(env := st.env[env.value.0 := env.value.1]))
    else if token == "cd" then
      if st.env != map[] then Failed else Ok(st.(mode := CHDIR, current := Some(Chdir(None))))
    else Ok(State(COMMAND, Some(Run(NewCommand(token, st.env))), map[], st.pipeline))
  }

  function CommandToken(st: State, cmd: Command, token: string): Result<State>
    requires st.current == Some(Run(cmd))
  {
    if token == ">" then Ok(st.(mode := STDOUT))
    else if token == "2>" then Ok(st.(mode := STDERR))
    else if token == "2>&1" then
      if cmd.stderr != Inherited then Failed else Ok(WithCommand(st, COMMAND, cmd.(stderr := SameAsOutput)))
    else if token == "<" then Ok(st.(mode := STDIN))
    else if token == "|" then
      if cmd.stdout != Inherited then Failed
      else Ok(Committed(WithCommand(st, COMMAND, cmd.(stdout := Piped)), Pipe))
    else if token == "&&" then Ok(Committed(st, And))
    else if token == "||" then Ok(Committed(st, Or))
    else Ok(WithCommand(st, COMMAND, cmd.(argv := cmd.argv + [token])))
  }

  /** One round of the loop; a failed assertion of the program is `Failed`. */
  function Step(st: State, token: string): (r: Result<State>)
    requires ModeFitsCurrent(st)
    ensures r.Ok? ==> ModeFitsCurrent(r.value)
  {
    match st.mode
    case BEGIN => BeginToken(st, token)
    case COMMAND => CommandToken(st, st.current.value.cmd, token)
    case CHDIR =>
      if token == "&&" then Ok(Committed(st, And))
      else if st.current.value.dir.Some? then Failed
      else Ok(st.(current := Some(Chdir(Some(token)))))
    case STDOUT =>
      var cmd := st.current.value.cmd;
      if cmd.stdout != Inherited then Failed else Ok(WithCommand(st, COMMAND, cmd.(stdout := File(token))))
    case STDERR =>
      var cmd := st.current.value.cmd;
      if cmd.stderr != Inherited then Failed else Ok(WithCommand(st, COMMAND, cmd.(stderr := File(token))))
    case STDIN =>
      var cmd := st.current.value.cmd;
      if cmd.stdin.Some? then Failed else Ok(WithCommand(st, COMMAND, cmd.(stdin := Some(token))))
  }

  function Steps(st: State, tokens: seq<string>): (r: Result<State>)
    requires ModeFitsCurrent(st)
    ensures r.Ok? ==> ModeFitsCurrent(r.value)
    decreases |tokens|
  {
    if tokens == [] then Ok(st)
    else
      var next := Step(st, tokens[0]);
      if next.Failed? then Failed else Steps(next.value, tokens[1..])
  }

  const START := State(BEGIN, None, map[], [])

  /** The last command is committed when the tokens run out, even after a redirection without a file name. */
  function Parsed(tokens: seq<string>): Result<seq<Node>> {
    var st := Steps(START, tokens);
    if st.Failed? || st.value.current.None? then Failed else Ok(st.value.pipeline + [st.value.current.value])
  }

  class Pipeline {
    var currentCommand: Option<Node>
    var pipeline: seq<Node>

    constructor ()
      ensures currentCommand == None && pipeline == []
    {
      currentCommand, pipeline := None, [];
    }

    method CommitCommand()
      requires currentCommand.Some?
      modifies this
      ensures pipeline == old(pipeline) + [old(currentCommand).value] && currentCommand == None
    {
      pipeline := pipeline + [currentCommand.value];
      currentCommand := None;
    }

    /** Parses a token list into the alternating list of nodes and operators. */
    method Parse(tokens: seq<string>) returns (r: Result<seq<Node>>)
      modifies this
      ensures r == Parsed(tokens)
      ensures r.Ok? ==> pipeline == r.value && currentCommand == None
    {
      currentCommand, pipeline := None, [];
      var rest, state, env := tokens, BEGIN, map[];
      while rest != []
        invariant ModeFitsCurrent(State(state, currentCommand, env, pipeline))
        invariant Steps(State(state, currentCommand, env, pipeline), rest) == Steps(START, tokens)
        decreases |rest|
      {
        var token := rest[0];
        rest := rest[1..];
        match state {
          case BEGIN =>
            var envMatch := EnvMatch(token);
            if envMatch.Some? {
              env := env[envMatch.value.0 := envMatch.value.1];
            } else if token == "cd" {
              if env != map[] {
                return Failed;
              }
              currentCommand, state := Some(Chdir(None)), CHDIR;
            } else {
              currentCommand, env, state := Some(Run(NewCommand(token, env))), map[], COMMAND;
            }
          case COMMAND =>
            var cmd := currentCommand.value.cmd;
            if token == ">" {
              state := STDOUT;
            } else if token == "2>" {
              state := STDERR;
            } else if token == "2>&1" {
              if cmd.stderr != Inherited {
                return Failed;
              }
              currentCommand := Some(Run(cmd.(stderr := SameAsOutput)));
            } else if token == "<" {
              state := STDIN;
            } else if token == "|" {
              if cmd.stdout != Inherited {
                return Failed;
              }
              currentCommand := Some(Run(cmd.(stdout := Piped)));
              CommitWith(Pipe);
              state := BEGIN;
            } else if token == "&&" {
              CommitWith(And);
              state := BEGIN;
            } else if token == "||" {
              CommitWith(Or);
              state := BEGIN;
            } else {
              currentCommand := Some(Run(cmd.(argv := cmd.argv + [token])));
            }
          case CHDIR =>
            if token == "&&" {
              CommitWith(And);
              state := BEGIN;
            } else {
              if currentCommand.value.dir.Some? {
                return Failed;
              }
              currentCommand := Some(Chdir(Some(token)));
            }
          case STDOUT =>
            var cmd := currentCommand.value.cmd;
            if cmd.stdout != Inherited {
              return Failed;
            }
            currentCommand, state := Some(Run(cmd.(stdout := File(token)))), COMMAND;
          case STDERR =>
            var cmd := currentCommand.value.cmd;
            if cmd.stderr != Inherited {
              return Failed;
            }
            currentCommand, state := Some(Run(cmd.(stderr := File(token)))), COMMAND;
          case STDIN =>
            var cmd := currentCommand.value.cmd;
            if cmd.stdin.Some? {
              return Failed;
            }
            currentCommand, state := Some(Run(cmd.(stdin := Some(token)))), COMMAND;
        }
      }
      if currentCommand.None? {
        return Failed;
      }
      CommitCommand();
      return Ok(pipeline);
    }

    method CommitWith(op: Node)
      requires currentCommand.Some?
      modifies this
      ensures pipeline == old(pipeline) + [old(currentCommand).value, op] && currentCommand == None
    {
      CommitCommand();
      pipeline := pipeline + [op];
    }
  }
}
