/** The evaluator of the mini shell: pipes, && and ||, and changes of directory. */
module ShellRunner {
  import opened Wrappers
  import opened ShellParser

  datatype Input = Terminal | Previous | FromFile(name: string)

  /** One process that was started, with what it was given; `cwd` is absent when the directory was never changed. */
  datatype Launch = Launch(
    argv: seq<string>, stdin: Input, stdout: Stream, stderr: Stream, env: map<string, string>, cwd: Option<string>)

  /** `Raised` stands for an assertion or index error, `NoStatus` for a run that falls off the end of its loop. */
  datatype Outcome = Returned(status: int) | NoStatus | Raised

  /** Joining of POSIX paths. */
  function JoinPath(cwd: string, dir: string): string {
    if dir != [] && dir[0] == '/' then dir
    else if cwd == [] || cwd[|cwd| - 1] == '/' then cwd + dir
    else cwd + "/" + dir
  }

  predicate IsAbsolute(dir: string) {
    dir != [] && dir[0] == '/'
  }

  function Slash(cwd: string): string {
    if cwd == [] || cwd[|cwd| - 1] == '/' then "" else "/"
  }

  lemma JoinAbsolute(a: string, b: string)
    requires IsAbsolute(b)
    ensures JoinPath(a, b) == b
  {
  }

  lemma JoinRelative(a: string, b: string)
    requires !IsAbsolute(b)
    ensures JoinPath(a, b) == a + (Slash(a) + b)
  {
    assert Slash(a) == "" ==> a + (Slash(a) + b) == a + b;
  }

  lemma RootStays(a: string, b: string)
    ensures a != [] ==> (IsAbsolute(a + b) <==> IsAbsolute(a))
  {
  }

  lemma SlashOfJoin(a: string, b: string)
    ensures Slash(a + (Slash(a) + b)) == if b == [] then "" else Slash(b)
  {
  }

  /** Changing directory twice is changing to the joined directory. */
  lemma JoinAssociates(a: string, b: string, c: string)
    ensures JoinPath(JoinPath(a, b), c) == JoinPath(a, JoinPath(b, c))
  {
    hide JoinPath, Slash, IsAbsolute;
    if IsAbsolute(c) {
      JoinAbsolute(b, c);
      JoinAbsolute(a, c);
      JoinAbsolute(JoinPath(a, b), c);
    } else {
      JoinRelative(b, c);
      if b == [] {
        JoinToNothing(c);
        JoinRelative(a, b);
        SlashOfJoin(a, b);
        JoinRelative(a, c);
        JoinRelative(JoinPath(a, b), c);
        Regroup(a, Slash(a), b, c);
      } else {
        RootStays(b, Slash(b) + c);
        if IsAbsolute(b) {
          JoinAbsolute(a, b);
          JoinAbsolute(a, JoinPath(b, c));
        } else {
          JoinRelative(a, b);
          SlashOfJoin(a, b);
          JoinRelative(a, JoinPath(b, c));
          JoinRelative(JoinPath(a, b), c);
          Regroup(a, Slash(a), b, Slash(b) + c);
        }
      }
    }
  }

  lemma JoinToNothing(c: string)
    ensures JoinPath([], c) == c && !IsAbsolute([]) && "" + c == c
  {
  }

  lemma Regroup(a: string, b: string, c: string, d: string)
    ensures a + (b + c) + d == a + (b + (c + d))
  {
  }

  function LaunchOf(cmd: Command, cwd: string, piping: bool): Launch {
    var stdin := if piping then Previous else if cmd.stdin.Some? then FromFile(cmd.stdin.value) else Terminal;
    Launch(cmd.argv, stdin, cmd.stdout, cmd.stderr, cmd.env, if cwd == "." then None else Some(cwd))
  }

  /** Waits for the processes of a pipe: zero if all are, and otherwise the status of the last. */
  method ExecPipedCommands(procs: seq<nat>, exit: nat -> int) returns (retval: int)
    ensures retval == if procs == [] then 0 else exit(procs[|procs| - 1])
  {
    var retvals: seq<int> := [];
    for i := 0 to |procs|
      invariant |retvals| == i && forall k :: 0 <= k < i ==> retvals[k] == exit(procs[k])
    {
      retvals := retvals + [exit(procs[i])];
    }
    retval := 0;
    for i := 0 to |retvals|
      invariant retval == 0 && forall k :: 0 <= k < i ==> retvals[k] == 0
    {
      if retvals[i] != 0 {
        retval := retvals[|retvals| - 1];
        break;
      }
    }
  }

  /** What the loop does with the nodes that are left; `procs` are the processes of the current pipe. */
  function Exec(rest: seq<Node>, cwd: string, piping: bool, procs: seq<nat>, log: seq<Launch>, exit: nat -> int)
    : (seq<Launch>, Outcome)
    decreases |rest|
  {
    if rest == [] then (log, NoStatus)
    else match rest[0]
      case Chdir(dir) =>
        if |rest| == 1 || rest[1] != And || dir.None? then (log, Raised)
        else Exec(rest[2..], JoinPath(cwd, dir.value), piping, procs, log, exit)
      case Run(cmd) =>
        var log', procs' := log + [LaunchOf(cmd, cwd, piping)], procs + [|log|];
        if |rest| == 1 then (log', Returned(exit(|log|)))
        else if rest[1] == Pipe then Exec(rest[2..], cwd, true, procs', log', exit)
        else if rest[1] == Or then
          if exit(|log|) == 0 then (log', Returned(0)) else Exec(rest[2..], cwd, false, [], log', exit)
        else if rest[1] == And then
          if exit(|log|) != 0 then (log', Returned(exit(|log|))) else Exec(rest[2..], cwd, false, [], log', exit)
        else Exec(rest[2..], cwd, piping, procs', log', exit)
      case _ => (log, Raised)
  }

  /** Runs a parsed pipeline; `exit(k)` is the status that the k-th process to be started ends with. */
  method RunPipeline(nodes: seq<Node>, exit: nat -> int) returns (log: seq<Launch>, outcome: Outcome)
    ensures (log, outcome) == Exec(nodes, ".", false, [], [], exit)
  {
    var pipeline, piping, cwd := nodes, false, ".";
    var pipedCommands: seq<nat> := [];
    log := [];
    while pipeline != []
      invariant Exec(pipeline, cwd, piping, pipedCommands, log, exit) == Exec(nodes, ".", false, [], [], exit)
      decreases |pipeline|
    {
      var node := pipeline[0];
      pipeline := pipeline[1..];
      if node.Chdir? {
        if pipeline == [] || pipeline[0] != And || node.dir.None? {
          return log, Raised;
        }
        pipeline := pipeline[1..];
        cwd := JoinPath(cwd, node.dir.value);
        continue;
      }
      if !node.Run? {
        return log, Raised;
      }
      pipedCommands := pipedCommands + [|log|];
      log := log + [LaunchOf(node.cmd, cwd, piping)];
      if pipeline == [] {
        var retval := ExecPipedCommands(pipedCommands, exit);
        return log, Returned(retval);
      }
      var next := pipeline[0];
      pipeline := pipeline[1..];
      if next == Pipe {
        piping := true;
      } else if next == Or {
        var retval := ExecPipedCommands(pipedCommands, exit);
        if retval == 0 {
          return log, Returned(retval);
        }
        piping, pipedCommands := false, [];
      } else if next == And {
        var retval := ExecPipedCommands(pipedCommands, exit);
        if retval != 0 {
          return log, Returned(retval);
        }
        piping, pipedCommands := false, [];
      }
    }
    return log, NoStatus;
  }

  // ---------------------------------------------------------------- the tree that a pipeline stands for

  /** A command of a pipe, after the changes of directory that precede it. */
  datatype Stage = Stage(dirs: seq<string>, cmd: Command)

  /** AND-OR lists nest to the right. */
  datatype Tree =
    | Single(group: seq<Stage>)
    | AndThen(group: seq<Stage>, rest: Tree)
    | OrElse(group: seq<Stage>, rest: Tree)

  function StageNodes(dirs: seq<string>, cmd: Command): seq<Node> {
    if dirs == [] then [Run(cmd)] else [Chdir(Some(dirs[0])), And] + StageNodes(dirs[1..], cmd)
  }

  function GroupNodes(group: seq<Stage>): seq<Node> {
    if group == [] then []
    else
      StageNodes(group[0].dirs, group[0].cmd) + if |group| == 1 then [] else [Pipe] + GroupNodes(group[1..])
  }

  function TreeNodes(tree: Tree): seq<Node> {
    match tree
    case Single(group) => GroupNodes(group)
    case AndThen(group, rest) => GroupNodes(group) + [And] + TreeNodes(rest)
    case OrElse(group, rest) => GroupNodes(group) + [Or] + TreeNodes(rest)
  }

  /** No pipe is empty; within a pipe the output of every command but the last is piped. */
  predicate TreeOk(tree: Tree) {
    GroupOk(tree.group) && (tree.Single? || TreeOk(tree.rest))
  }

  predicate GroupOk(group: seq<Stage>) {
    && group != []
    && (group[0].cmd.stdout == Piped <==> |group| > 1)
    && (|group| > 1 ==> GroupOk(group[1..]))
  }

  // ---------------------------------------------------------------- its meaning

  function EnterAll(cwd: string, dirs: seq<string>): string
    decreases |dirs|
  {
    if dirs == [] then cwd else EnterAll(JoinPath(cwd, dirs[0]), dirs[1..])
  }

  function GroupDir(cwd: string, group: seq<Stage>): string
    decreases |group|
  {
    if group == [] then cwd else GroupDir(EnterAll(cwd, group[0].dirs), group[1..])
  }

  /** A pipe starts all its commands, each but the first reading from the one before it. */
  function GroupLaunches(cwd: string, group: seq<Stage>, piping: bool): (log: seq<Launch>)
    ensures |log| == |group|
    decreases |group|
  {
    if group == [] then []
    else
      var dir := EnterAll(cwd, group[0].dirs);
      [LaunchOf(group[0].cmd, dir, piping)] + GroupLaunches(dir, group[1..], true)
  }

  /** `started` processes precede; a pipe has the status of its last command. */
  function Eval(tree: Tree, cwd: string, started: nat, exit: nat -> int): (seq<Launch>, int)
    requires TreeOk(tree)
  {
    var log := GroupLaunches(cwd, tree.group, false);
    var n := started + |tree.group|;
    var status := exit(n - 1);
    if tree.Single? || (tree.AndThen? && status != 0) || (tree.OrElse? && status == 0) then (log, status)
    else
      var (log', status') := Eval(tree.rest, GroupDir(cwd, tree.group), n, exit);
      (log + log', status')
  }

  lemma NotEmpty(group: seq<Stage>)
    requires GroupOk(group)
    ensures group != []
  {
  }

  lemma EvalParts(tree: Tree, cwd: string, started: nat, exit: nat -> int)
    requires TreeOk(tree)
    ensures tree.group != []
    ensures var log, n := GroupLaunches(cwd, tree.group, false), started + |tree.group|;
            var status := exit(n - 1);
            Eval(tree, cwd, started, exit)
            == if tree.Single? || (tree.AndThen? && status != 0) || (tree.OrElse? && status == 0) then (log, status)
               else
                 var rest := Eval(tree.rest, GroupDir(cwd, tree.group), n, exit);
                 (log + rest.0, rest.1)
  {
    hide GroupLaunches, GroupDir, GroupOk;
    NotEmpty(tree.group);
  }

  // ---------------------------------------------------------------- the loop evaluates the tree

  lemma {:induction false} StageRuns(dirs: seq<string>, cmd: Command, tail: seq<Node>, cwd: string, piping: bool,
                                     procs: seq<nat>, log: seq<Launch>, exit: nat -> int)
    ensures Exec(StageNodes(dirs, cmd) + tail, cwd, piping, procs, log, exit)
            == Exec([Run(cmd)] + tail, EnterAll(cwd, dirs), piping, procs, log, exit)
    decreases |dirs|
  {
    if dirs != [] {
      var nodes := StageNodes(dirs, cmd) + tail;
      assert nodes[0] == Chdir(Some(dirs[0])) && nodes[1] == And;
      assert nodes[2..] == StageNodes(dirs[1..], cmd) + tail;
      StageRuns(dirs[1..], cmd, tail, JoinPath(cwd, dirs[0]), piping, procs, log, exit);
    }
  }

  /** How the loop goes on once the last command of a pipe has been started. */
  function AfterGroup(tail: seq<Node>, cwd: string, log: seq<Launch>, exit: nat -> int): (seq<Launch>, Outcome)
    requires log != []
  {
    var status := exit(|log| - 1);
    if tail == [] || (tail[0] == Or && status == 0) || (tail[0] == And && status != 0) then (log, Returned(status))
    else Exec(tail[1..], cwd, false, [], log, exit)
  }

  lemma {:induction false} GroupRuns(group: seq<Stage>, tail: seq<Node>, cwd: string, piping: bool, procs: seq<nat>,
                                     log: seq<Launch>, exit: nat -> int)
    requires group != [] && (tail != [] ==> tail[0] == And || tail[0] == Or)
    ensures Exec(GroupNodes(group) + tail, cwd, piping, procs, log, exit)
            == AfterGroup(tail, GroupDir(cwd, group), log + GroupLaunches(cwd, group, piping), exit)
    decreases |group|
  {
    hide Exec, StageNodes, GroupNodes, GroupDir, GroupLaunches, EnterAll, AfterGroup;
    var dirs, cmd := group[0].dirs, group[0].cmd;
    var dir := EnterAll(cwd, dirs);
    FirstOfGroup(group, cwd, piping);
    if |group| == 1 {
      StageRuns(dirs, cmd, tail, cwd, piping, procs, log, exit);
      LastOfGroup(cmd, tail, dir, piping, procs, log, exit);
    } else {
      var first, rest := LaunchOf(cmd, dir, piping), group[1..];
      var more := GroupNodes(rest) + tail;
      assert StageNodes(dirs, cmd) + [Pipe] + GroupNodes(rest) + tail == StageNodes(dirs, cmd) + ([Pipe] + more);
      StageRuns(dirs, cmd, [Pipe] + more, cwd, piping, procs, log, exit);
      PipeGoesOn(cmd, more, dir, piping, procs, log, exit);
      GroupRuns(rest, tail, dir, true, procs + [|log|], log + [first], exit);
      assert log + ([first] + GroupLaunches(dir, rest, true)) == log + [first] + GroupLaunches(dir, rest, true);
    }
  }

  lemma FirstOfGroup(group: seq<Stage>, cwd: string, piping: bool)
    requires group != []
    ensures var nodes, dir := StageNodes(group[0].dirs, group[0].cmd), EnterAll(cwd, group[0].dirs);
            var first := LaunchOf(group[0].cmd, dir, piping);
            if |group| == 1 then
              GroupNodes(group) == nodes && GroupDir(cwd, group) == dir && GroupLaunches(cwd, group, piping) == [first]
            else
              && GroupNodes(group) == nodes + [Pipe] + GroupNodes(group[1..])
              && GroupDir(cwd, group) == GroupDir(dir, group[1..])
              && GroupLaunches(cwd, group, piping) == [first] + GroupLaunches(dir, group[1..], true)
  {
    hide StageNodes, EnterAll;
    var dir := EnterAll(cwd, group[0].dirs);
    if |group| == 1 {
      assert group[1..] == [];
      assert GroupDir(dir, []) == dir && GroupLaunches(dir, [], true) == [];
    }
  }

  lemma LastOfGroup(cmd: Command, tail: seq<Node>, cwd: string, piping: bool, procs: seq<nat>, log: seq<Launch>,
                    exit: nat -> int)
    requires tail != [] ==> tail[0] == And || tail[0] == Or
    ensures Exec([Run(cmd)] + tail, cwd, piping, procs, log, exit)
            == AfterGroup(tail, cwd, log + [LaunchOf(cmd, cwd, piping)], exit)
  {
    var nodes := [Run(cmd)] + tail;
    assert nodes[0] == Run(cmd);
    assert tail != [] ==> nodes[1] == tail[0] && nodes[2..] == tail[1..];
  }

  lemma PipeGoesOn(cmd: Command, more: seq<Node>, cwd: string, piping: bool, procs: seq<nat>, log: seq<Launch>,
                   exit: nat -> int)
    ensures Exec([Run(cmd)] + ([Pipe] + more), cwd, piping, procs, log, exit)
            == Exec(more, cwd, true, procs + [|log|], log + [LaunchOf(cmd, cwd, piping)], exit)
  {
    var nodes := [Run(cmd)] + ([Pipe] + more);
    assert nodes[0] == Run(cmd) && nodes[1] == Pipe && nodes[2..] == more;
  }

  /** The loop computes the right-nested evaluation. */
  lemma {:induction false} RunsTree(tree: Tree, cwd: string, log: seq<Launch>, exit: nat -> int)
    requires TreeOk(tree)
    ensures var (launches, status) := Eval(tree, cwd, |log|, exit);
            Exec(TreeNodes(tree), cwd, false, [], log, exit) == (log + launches, Returned(status))
  {
    hide Exec, GroupNodes, GroupLaunches, GroupDir, Eval, GroupOk;
    EvalParts(tree, cwd, |log|, exit);
    var first, dir := GroupLaunches(cwd, tree.group, false), GroupDir(cwd, tree.group);
    var tail := if tree.Single? then [] else [if tree.AndThen? then And else Or] + TreeNodes(tree.rest);
    assert TreeNodes(tree) == GroupNodes(tree.group) + tail;
    GroupRuns(tree.group, tail, cwd, false, [], log, exit);
    if !tree.Single? {
      assert tail[1..] == TreeNodes(tree.rest);
      RunsTree(tree.rest, dir, log + first, exit);
      var more := Eval(tree.rest, dir, |log + first|, exit).0;
      assert (log + first) + more == log + (first + more);
    }
  }

  // ---------------------------------------------------------------- what a run starts

  function GroupCommands(group: seq<Stage>): (c: seq<Command>)
    ensures |c| == |group|
  {
    if group == [] then [] else [group[0].cmd] + GroupCommands(group[1..])
  }

  function Commands(tree: Tree): seq<Command> {
    GroupCommands(tree.group) + if tree.Single? then [] else Commands(tree.rest)
  }

  /** The launches are those of the first commands, in their order and once each. */
  ghost predicate InOrder(log: seq<Launch>, commands: seq<Command>) {
    && |log| <= |commands|
    && forall k :: 0 <= k < |log| ==> log[k].argv == commands[k].argv && log[k].env == commands[k].env
  }

  /** A process reads from the one before it exactly when that one's output is piped; `piping` tells of the first. */
  ghost predicate Connected(log: seq<Launch>, piping: bool) {
    forall k :: 0 <= k < |log| ==> FedAt(log, piping, k)
  }

  ghost predicate FedAt(log: seq<Launch>, piping: bool, k: nat)
    requires k < |log|
  {
    var fed := if k == 0 then piping else log[k - 1].stdout == Piped;
    log[k].stdin == Previous <==> fed
  }

  lemma {:induction false} GroupInOrder(cwd: string, group: seq<Stage>, piping: bool)
    requires GroupOk(group)
    ensures var log := GroupLaunches(cwd, group, piping);
            && InOrder(log, GroupCommands(group))
            && Connected(log, piping) && log != []
            && log[|log| - 1].stdout != Piped
    decreases |group|
  {
    if |group| > 1 {
      var dir := EnterAll(cwd, group[0].dirs);
      GroupInOrder(dir, group[1..], true);
      var more := GroupLaunches(dir, group[1..], true);
      var log := GroupLaunches(cwd, group, piping);
      assert log[1..] == more;
      forall k | 0 <= k < |log| ensures FedAt(log, piping, k) {
        assert k > 0 ==> FedAt(more, true, k - 1);
      }
    }
  }

  lemma {:induction false} LaunchesInOrder(tree: Tree, cwd: string, started: nat, exit: nat -> int)
    requires TreeOk(tree)
    ensures var log := Eval(tree, cwd, started, exit).0;
            InOrder(log, Commands(tree)) && Connected(log, false) && log != [] && log[|log| - 1].stdout != Piped
  {
    hide GroupLaunches, GroupCommands, GroupOk, InOrder, Connected, GroupDir, Eval;
    EvalParts(tree, cwd, started, exit);
    var first := GroupLaunches(cwd, tree.group, false);
    GroupInOrder(cwd, tree.group, false);
    NotEmpty(tree.group);
    if tree.Single? {
      assert Commands(tree) == GroupCommands(tree.group);
    } else {
      var dir, n := GroupDir(cwd, tree.group), started + |tree.group|;
      LaunchesInOrder(tree.rest, dir, n, exit);
      JoinInOrder(first, Eval(tree.rest, dir, n, exit).0, GroupCommands(tree.group), Commands(tree.rest));
    }
  }

  lemma JoinInOrder(a: seq<Launch>, b: seq<Launch>, c: seq<Command>, d: seq<Command>)
    requires |a| == |c| && InOrder(a, c) && InOrder(b, d)
    requires Connected(a, false) && Connected(b, false) && a != [] && a[|a| - 1].stdout != Piped
    requires b != [] && b[|b| - 1].stdout != Piped
    ensures InOrder(a, c + d) && InOrder(a + b, c + d) && Connected(a + b, false)
    ensures (a + b)[|a + b| - 1].stdout != Piped
  {
    var log, n := a + b, |a|;
    assert forall k :: 0 <= k < n ==> log[k] == a[k] && (c + d)[k] == c[k];
    assert forall k :: n <= k < |log| ==> log[k] == b[k - n] && (c + d)[k] == d[k - n];
    forall k | 0 <= k < |log| ensures FedAt(log, false, k) {
      assert if k < n then FedAt(a, false, k) else FedAt(b, false, k - n);
    }
    assert log[|log| - 1] == b[|b| - 1];
  }

  // ---------------------------------------------------------------- comparison with the standard's lists

  /** Left-associative AND-OR lists: a skipped pipe leaves the status to the next connector. */
  function StandardEval(tree: Tree, goes: bool, status: int, cwd: string, started: nat, exit: nat -> int)
    : (seq<Launch>, int)
    requires TreeOk(tree)
  {
    var log := if goes then GroupLaunches(cwd, tree.group, false) else [];
    var dir := if goes then GroupDir(cwd, tree.group) else cwd;
    var n := started + |log|;
    var status' := if goes then exit(n - 1) else status;
    if tree.Single? then (log, status')
    else
      var (more, last) := StandardEval(tree.rest, (tree.AndThen? <==> status' == 0), status', dir, n, exit);
      (log + more, last)
  }

  predicate HasAnd(tree: Tree) {
    tree.AndThen? || (tree.OrElse? && HasAnd(tree.rest))
  }

  predicate HasOr(tree: Tree) {
    tree.OrElse? || (tree.AndThen? && HasOr(tree.rest))
  }

  /** What is left after a short circuit is skipped entirely unless a connector of the other kind follows. */
  lemma {:induction false} SkippedRest(tree: Tree, status: int, cwd: string, started: nat, exit: nat -> int)
    requires TreeOk(tree)
    ensures var (log, last) := StandardEval(tree, false, status, cwd, started, exit);
            if (if status == 0 then HasAnd(tree) else HasOr(tree)) then log != [] else log == [] && last == status
  {
    if !tree.Single? {
      NotEmpty(tree.rest.group);
      var goes := tree.AndThen? <==> status == 0;
      if !goes {
        SkippedRest(tree.rest, status, cwd, started, exit);
      } else {
        assert StandardEval(tree.rest, true, status, cwd, started, exit).0 != [];
      }
    }
  }

  lemma {:induction false} UniformAgrees(tree: Tree, status: int, cwd: string, started: nat, exit: nat -> int)
    requires TreeOk(tree) && !(HasAnd(tree) && HasOr(tree))
    ensures Eval(tree, cwd, started, exit) == StandardEval(tree, true, status, cwd, started, exit)
  {
    hide GroupLaunches, GroupOk;
    NotEmpty(tree.group);
    if !tree.Single? {
      var n := started + |tree.group|;
      var dir, status' := GroupDir(cwd, tree.group), exit(n - 1);
      if tree.AndThen? <==> status' == 0 {
        UniformAgrees(tree.rest, status', dir, n, exit);
      } else {
        SkippedRest(tree.rest, status', dir, n, exit);
        assert GroupLaunches(cwd, tree.group, false) + [] == GroupLaunches(cwd, tree.group, false);
      }
    }
  }

  lemma MixedDiffers(tree: Tree, cwd: string) returns (exit: nat -> int)
    requires TreeOk(tree) && HasAnd(tree) && HasOr(tree)
    ensures Eval(tree, cwd, 0, exit) != StandardEval(tree, true, 0, cwd, 0, exit)
  {
    var status := if tree.AndThen? then 1 else 0;
    exit := (k: nat) => status;
    NotEmpty(tree.group);
    var n := |tree.group|;
    SkippedRest(tree.rest, status, GroupDir(cwd, tree.group), n, exit);
  }

  /** The right-nested reading agrees with the standard's, whatever the exit statuses, iff && and || are not mixed. */
  lemma AgreesUnlessMixed(tree: Tree, cwd: string)
    requires TreeOk(tree)
    ensures (forall exit :: Eval(tree, cwd, 0, exit) == StandardEval(tree, true, 0, cwd, 0, exit))
            <==> !(HasAnd(tree) && HasOr(tree))
  {
    if HasAnd(tree) && HasOr(tree) {
      var exit := MixedDiffers(tree, cwd);
    } else {
      forall exit ensures Eval(tree, cwd, 0, exit) == StandardEval(tree, true, 0, cwd, 0, exit) {
        UniformAgrees(tree, 0, cwd, 0, exit);
      }
    }
  }
}
