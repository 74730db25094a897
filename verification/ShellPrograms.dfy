/** Parsing and running together: what a token list does when it is run. */
module ShellPrograms {
  import opened Wrappers
  import opened ShellParser
  import opened ShellGrammar
  import opened ShellRunner
  import opened ShellPlaces

  /** Every change of directory names one and is followed by something. */
  ghost predicate Runnable(nodes: seq<Node>) {
    forall k :: 0 <= k < |nodes| && nodes[k].Chdir? ==> nodes[k].dir.Some? && k < |nodes| - 1
  }

  // ---------------------------------------------------------------- the tree of a parsed line

  function WithDir(group: seq<Stage>, dir: string): seq<Stage>
    requires group != []
  {
    [Stage([dir] + group[0].dirs, group[0].cmd)] + group[1..]
  }

  function WithGroup(tree: Tree, group: seq<Stage>): Tree {
    tree.(group := group)
  }

  lemma DirInFront(group: seq<Stage>, dir: string)
    requires GroupOk(group)
    ensures GroupOk(WithDir(group, dir))
    ensures GroupNodes(WithDir(group, dir)) == [Chdir(Some(dir)), And] + GroupNodes(group)
  {
    hide StageNodes;
    var dirs := [dir] + group[0].dirs;
    assert dirs[1..] == group[0].dirs && WithDir(group, dir)[1..] == group[1..];
    FirstDir(dirs, group[0].cmd);
  }

  lemma FirstDir(dirs: seq<string>, cmd: Command)
    requires dirs != []
    ensures StageNodes(dirs, cmd) == [Chdir(Some(dirs[0])), And] + StageNodes(dirs[1..], cmd)
  {
  }

  lemma StageInFront(group: seq<Stage>, cmd: Command)
    requires GroupOk(group) && cmd.stdout == Piped
    ensures GroupOk([Stage([], cmd)] + group)
    ensures GroupNodes([Stage([], cmd)] + group) == [Run(cmd), Pipe] + GroupNodes(group)
  {
    hide StageNodes, GroupNodes, GroupOk;
    var longer := [Stage([], cmd)] + group;
    NotEmpty(group);
    assert longer[0] == Stage([], cmd) && longer[1..] == group;
    GroupParts(longer);
    NoDirs(cmd);
    assert [Run(cmd)] + ([Pipe] + GroupNodes(group)) == [Run(cmd), Pipe] + GroupNodes(group);
  }

  lemma NoDirs(cmd: Command)
    ensures StageNodes([], cmd) == [Run(cmd)]
  {
  }

  lemma GroupParts(group: seq<Stage>)
    requires |group| > 1
    ensures GroupNodes(group) == StageNodes(group[0].dirs, group[0].cmd) + ([Pipe] + GroupNodes(group[1..]))
    ensures GroupOk(group) <==> group[0].cmd.stdout == Piped && GroupOk(group[1..])
  {
    hide StageNodes;
  }

  /** What is put in front of the first pipe of a tree is in front of its nodes. */
  lemma InFront(tree: Tree, group: seq<Stage>, front: seq<Node>)
    requires TreeOk(tree) && GroupOk(group) && GroupNodes(group) == front + GroupNodes(tree.group)
    ensures TreeOk(WithGroup(tree, group)) && TreeNodes(WithGroup(tree, group)) == front + TreeNodes(tree)
  {
    hide GroupNodes, GroupOk;
  }

  lemma OneCommand(cmd: Command)
    requires cmd.stdout != Piped
    ensures GroupOk([Stage([], cmd)]) && GroupNodes([Stage([], cmd)]) == [Run(cmd)]
  {
  }

  lemma {:induction false} TreeFor(nodes: seq<Node>) returns (tree: Tree)
    requires FrontOk(nodes) && Runnable(nodes)
    ensures TreeOk(tree) && TreeNodes(tree) == nodes
    decreases |nodes|
  {
    hide TreeOk, TreeNodes, GroupNodes, GroupOk, NodeOk, CommandOk, WithGroup, WithDir, EnvOk;
    NodeKinds(nodes[0]);
    if |nodes| == 1 {
      OneCommand(nodes[0].cmd);
      tree := Single([Stage([], nodes[0].cmd)]);
      TreeParts(tree);
    } else {
      var rest := TreeFor(nodes[2..]);
      assert nodes == [nodes[0], nodes[1]] + nodes[2..];
      TreeParts(rest);
      if nodes[0].Chdir? {
        var dir := nodes[0].dir.value;
        DirInFront(rest.group, dir);
        tree := WithGroup(rest, WithDir(rest.group, dir));
        InFront(rest, WithDir(rest.group, dir), [Chdir(Some(dir)), And]);
      } else if nodes[1] == Pipe {
        StageInFront(rest.group, nodes[0].cmd);
        tree := WithGroup(rest, [Stage([], nodes[0].cmd)] + rest.group);
        InFront(rest, [Stage([], nodes[0].cmd)] + rest.group, [nodes[0], Pipe]);
      } else {
        OneCommand(nodes[0].cmd);
        var group := [Stage([], nodes[0].cmd)];
        tree := if nodes[1] == And then AndThen(group, rest) else OrElse(group, rest);
        TreeParts(tree);
      }
    }
  }

  lemma TreeParts(tree: Tree)
    ensures TreeOk(tree) <==> GroupOk(tree.group) && (tree.Single? || TreeOk(tree.rest))
    ensures TreeOk(tree) ==> tree.group != []
    ensures TreeNodes(tree)
            == if tree.Single? then GroupNodes(tree.group)
               else GroupNodes(tree.group) + [if tree.AndThen? then And else Or] + TreeNodes(tree.rest)
  {
  }

  // ---------------------------------------------------------------- results

  /** A run evaluates the tree, starts its first commands in order and in place, and connects exactly the piped ones. */
  ghost predicate RunsAs(nodes: seq<Node>, tree: Tree, exit: nat -> int) {
    var (log, outcome) := Exec(nodes, ".", false, [], [], exit);
    && TreeOk(tree) && TreeNodes(tree) == nodes
    && log == Eval(tree, ".", 0, exit).0 && outcome == Returned(Eval(tree, ".", 0, exit).1)
    && InOrder(log, Commands(tree)) && Connected(log, false)
    && StartedInOrder(log, Places(nodes, "."))
  }

  /** Any line that parses, and whose changes of directory are complete, runs as a right-nested tree. */
  lemma ParsedLineRuns(tokens: seq<string>) returns (tree: Tree)
    requires Parsed(tokens).Ok? && Runnable(Parsed(tokens).value)
    ensures forall exit :: RunsAs(Parsed(tokens).value, tree, exit)
  {
    hide Exec, Eval, TreeOk, TreeNodes, InOrder, Connected, WellFormed, FrontOk, StartedInOrder, Places;
    var nodes := Parsed(tokens).value;
    ParsedIsWellFormed(tokens);
    WellFormedFront(nodes);
    tree := TreeFor(nodes);
    forall exit ensures RunsAs(nodes, tree, exit) {
      RunsTree(tree, ".", [], exit);
      LaunchesInOrder(tree, ".", 0, exit);
      var started := ExecStartsInOrder(nodes, ".", false, [], [], exit);
      assert [] + started == started;
      assert [] + Eval(tree, ".", 0, exit).0 == Eval(tree, ".", 0, exit).0;
    }
  }

  /** Only an incomplete change of directory can make the run of a parsed line fail, and none ends without a status. */
  lemma {:induction false} ParsedRunOutcome(nodes: seq<Node>, cwd: string, piping: bool, procs: seq<nat>,
                                            log: seq<Launch>,
                                            exit: nat -> int)
    requires FrontOk(nodes)
    ensures var outcome := Exec(nodes, cwd, piping, procs, log, exit).1;
            outcome != NoStatus && (Runnable(nodes) ==> outcome.Returned?)
    decreases |nodes|
  {
    hide CommandOk;
    NodeKinds(nodes[0]);
    if |nodes| > 1 {
      var rest := nodes[2..];
      assert Runnable(nodes) ==> Runnable(rest);
      match nodes[0]
      case Chdir(dir) =>
        if dir.Some? {
          ParsedRunOutcome(rest, JoinPath(cwd, dir.value), piping, procs, log, exit);
        }
      case Run(cmd) =>
        var log' := log + [LaunchOf(cmd, cwd, piping)];
        ParsedRunOutcome(rest, cwd, true, procs + [|log|], log', exit);
        ParsedRunOutcome(rest, cwd, false, [], log', exit);
    }
  }

  // ---------------------------------------------------------------- when a run can fail

  /** Exit statuses that take a run through the whole line: success, except before ||. */
  function Steering(nodes: seq<Node>): seq<int> {
    if nodes == [] then []
    else
      (if nodes[0].Run? then [if |nodes| > 1 && nodes[1] == Or then 1 else 0] else [])
      + if |nodes| == 1 then [] else Steering(nodes[2..])
  }

  ghost predicate Steers(exit: nat -> int, nodes: seq<Node>, from: nat) {
    forall k: nat :: k < |Steering(nodes)| ==> exit(from + k) == Steering(nodes)[k]
  }

  lemma {:induction false} SteeredRunFails(nodes: seq<Node>, cwd: string, piping: bool, procs: seq<nat>,
                                           log: seq<Launch>, exit: nat -> int)
    requires FrontOk(nodes) && !Runnable(nodes) && Steers(exit, nodes, |log|)
    ensures Exec(nodes, cwd, piping, procs, log, exit).1 == Raised
    decreases |nodes|
  {
    hide CommandOk, LaunchOf, JoinPath, Exec, Steering, Runnable;
    NodeKinds(nodes[0]);
    ExecParts(nodes, cwd, piping, procs, log, exit);
    if |nodes| == 1 {
      LoneCommandRuns(nodes);
    } else {
      var rest := nodes[2..];
      SteeringParts(nodes);
      if nodes[0].Run? {
        SameRunnable(nodes);
        var log' := log + [LaunchOf(nodes[0].cmd, cwd, piping)];
        assert exit(|log| + 0) == Steering(nodes)[0];
        forall k: nat | k < |Steering(rest)| ensures exit(|log'| + k) == Steering(rest)[k] {
          assert exit(|log| + (k + 1)) == Steering(nodes)[k + 1];
        }
        if nodes[1] == Pipe {
          SteeredRunFails(rest, cwd, true, procs + [|log|], log', exit);
        } else {
          SteeredRunFails(rest, cwd, false, [], log', exit);
        }
      } else if nodes[0].dir.Some? {
        SameRunnable(nodes);
        assert Steering(nodes) == Steering(rest);
        SteeredRunFails(rest, JoinPath(cwd, nodes[0].dir.value), piping, procs, log, exit);
      }
    }
  }

  lemma LoneCommandRuns(nodes: seq<Node>)
    requires |nodes| == 1
    ensures nodes[0].Run? ==> Runnable(nodes)
  {
  }

  lemma SteeringParts(nodes: seq<Node>)
    requires |nodes| > 1
    ensures Steering(nodes)
            == (if nodes[0].Run? then [if nodes[1] == Or then 1 else 0] else []) + Steering(nodes[2..])
  {
  }

  /** Behind a command, or a change to a named directory, lies what makes a list runnable or not. */
  lemma SameRunnable(nodes: seq<Node>)
    requires |nodes| > 1 && (nodes[0].Run? || (nodes[0].Chdir? && nodes[0].dir.Some?)) && IsOp(nodes[1])
    ensures Runnable(nodes) <==> Runnable(nodes[2..])
  {
    var rest := nodes[2..];
    assert forall k :: 0 <= k < |rest| ==> rest[k] == nodes[k + 2];
    if Runnable(rest) {
      forall k | 0 <= k < |nodes| && nodes[k].Chdir? ensures nodes[k].dir.Some? && k < |nodes| - 1 {
        if k >= 2 {
          assert rest[k - 2].Chdir?;
        }
      }
    }
  }

  /** A parsed line runs to an exit status whatever its commands return iff its changes of directory are complete. */
  lemma RunnableIffNeverFails(tokens: seq<string>)
    requires Parsed(tokens).Ok?
    ensures Runnable(Parsed(tokens).value)
            <==> forall exit :: Exec(Parsed(tokens).value, ".", false, [], [], exit).1.Returned?
  {
    hide Exec, WellFormed, FrontOk, Runnable, Steering, Parsed;
    var nodes := Parsed(tokens).value;
    ParsedIsWellFormed(tokens);
    WellFormedFront(nodes);
    if Runnable(nodes) {
      forall exit ensures Exec(nodes, ".", false, [], [], exit).1.Returned? {
        ParsedRunOutcome(nodes, ".", false, [], [], exit);
      }
    } else {
      var exit := (k: nat) => if k < |Steering(nodes)| then Steering(nodes)[k] else 0;
      SteeredRunFails(nodes, ".", false, [], [], exit);
      assert !Exec(nodes, ".", false, [], [], exit).1.Returned?;
    }
  }
}
