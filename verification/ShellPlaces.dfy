/** What each process of a shell line is started with. */
module ShellPlaces {
  import opened Wrappers
  import opened ShellParser
  import opened ShellGrammar
  import opened ShellRunner

  // ---------------------------------------------------------------- directories

  /** How a directory is joined to another: an absolute one replaces it, a relative one follows it after one slash. */
  lemma JoinIsPosix(cwd: string, dir: string)
    ensures var r := JoinPath(cwd, dir);
            if dir != "" && dir[0] == '/' then r == dir
            else
              && |r| == |cwd| + |dir| + (if cwd == "" || cwd[|cwd| - 1] == '/' then 0 else 1)
              && r[..|cwd|] == cwd && r[|r| - |dir|..] == dir
              && (cwd != "" ==> r[|r| - |dir| - 1] == '/')
  {
  }

  /** A command of a line, and the directory that all changes of directory before it lead to. */
  datatype Place = Place(cmd: Command, dir: string)

  function Places(nodes: seq<Node>, dir: string): seq<Place> {
    if nodes == [] then []
    else match nodes[0]
      case Run(cmd) => [Place(cmd, dir)] + Places(nodes[1..], dir)
      case Chdir(d) => Places(nodes[1..], if d.Some? then JoinPath(dir, d.value) else dir)
      case _ => Places(nodes[1..], dir)
  }

  /** A process is started as its command and its place say; only where it reads from may depend on what precedes it. */
  ghost predicate StartedAs(launch: Launch, place: Place) {
    && launch.argv == place.cmd.argv && launch.env == place.cmd.env
    && launch.stdout == place.cmd.stdout && launch.stderr == place.cmd.stderr
    && launch.cwd == (if place.dir == "." then None else Some(place.dir))
    && (launch.stdin != Previous ==>
          if place.cmd.stdin.Some? then launch.stdin == FromFile(place.cmd.stdin.value) else launch.stdin == Terminal)
  }

  /** The processes are those of the first commands, once each, in their order and at their places. */
  ghost predicate StartedInOrder(log: seq<Launch>, places: seq<Place>) {
    |log| <= |places| && forall k :: 0 <= k < |log| ==> StartedAs(log[k], places[k])
  }

  lemma PlacesOfPair(nodes: seq<Node>, dir: string)
    requires |nodes| >= 2 && !nodes[1].Run? && !nodes[1].Chdir?
    ensures Places(nodes, dir)
            == match nodes[0]
               case Run(cmd) => [Place(cmd, dir)] + Places(nodes[2..], dir)
               case Chdir(d) => Places(nodes[2..], if d.Some? then JoinPath(dir, d.value) else dir)
               case _ => Places(nodes[2..], dir)
  {
    assert nodes[1..][1..] == nodes[2..];
    assert forall d :: Places(nodes[1..], d) == Places(nodes[2..], d);
  }

  lemma OneMorePlace(launch: Launch, place: Place, log: seq<Launch>, places: seq<Place>)
    requires StartedAs(launch, place) && StartedInOrder(log, places)
    ensures StartedInOrder([launch] + log, [place] + places)
  {
    hide StartedAs;
    var longer, more := [launch] + log, [place] + places;
    forall k | 0 <= k < |longer| ensures StartedAs(longer[k], more[k]) {
      assert k > 0 ==> longer[k] == log[k - 1] && more[k] == places[k - 1];
    }
  }

  lemma LaunchIsStartedAs(cmd: Command, dir: string, piping: bool)
    ensures StartedAs(LaunchOf(cmd, dir, piping), Place(cmd, dir))
    ensures LaunchOf(cmd, dir, piping).stdin == Previous <==> piping
  {
  }

  /** Whatever the exit statuses, a run of a parsed line starts its commands so, each where it belongs. */
  lemma {:induction false} ExecStartsInOrder(nodes: seq<Node>, cwd: string, piping: bool, procs: seq<nat>,
                                             log: seq<Launch>, exit: nat -> int) returns (started: seq<Launch>)
    requires FrontOk(nodes)
    ensures Exec(nodes, cwd, piping, procs, log, exit).0 == log + started
    ensures StartedInOrder(started, Places(nodes, cwd))
    decreases |nodes|
  {
    hide CommandOk, StartedAs, LaunchOf, JoinPath, StartedInOrder, Places, Exec;
    NodeKinds(nodes[0]);
    ExecParts(nodes, cwd, piping, procs, log, exit);
    if nodes[0].Chdir? {
      if |nodes| > 1 && nodes[0].dir.Some? {
        PlacesOfPair(nodes, cwd);
        started := ExecStartsInOrder(nodes[2..], JoinPath(cwd, nodes[0].dir.value), piping, procs, log, exit);
      } else {
        started := [];
        Nothing(Places(nodes, cwd));
        assert log + [] == log;
      }
    } else {
      var launch, status := LaunchOf(nodes[0].cmd, cwd, piping), exit(|log|);
      var rest: seq<Launch> := [];
      var after := log + [launch];
      if |nodes| > 1 && nodes[1] == Pipe {
        rest := ExecStartsInOrder(nodes[2..], cwd, true, procs + [|log|], after, exit);
      } else if |nodes| > 1 && (nodes[1] == And <==> status == 0) {
        rest := ExecStartsInOrder(nodes[2..], cwd, false, [], after, exit);
      } else {
        assert after + [] == after;
      }
      started := [launch] + rest;
      assert after + rest == log + started;
      CommandStarted(nodes, cwd, piping, rest);
    }
  }

  lemma ExecParts(nodes: seq<Node>, cwd: string, piping: bool, procs: seq<nat>, log: seq<Launch>, exit: nat -> int)
    requires FrontOk(nodes)
    ensures nodes[0].Chdir? ==>
              Exec(nodes, cwd, piping, procs, log, exit)
              == if |nodes| == 1 || nodes[0].dir.None? then (log, Raised)
                 else Exec(nodes[2..], JoinPath(cwd, nodes[0].dir.value), piping, procs, log, exit)
    ensures nodes[0].Run? ==>
              var log', status := log + [LaunchOf(nodes[0].cmd, cwd, piping)], exit(|log|);
              Exec(nodes, cwd, piping, procs, log, exit)
              == if |nodes| > 1 && nodes[1] == Pipe then Exec(nodes[2..], cwd, true, procs + [|log|], log', exit)
                 else if |nodes| > 1 && (nodes[1] == And <==> status == 0) then
                   Exec(nodes[2..], cwd, false, [], log', exit)
                 else (log', Returned(status))
  {
    hide CommandOk, LaunchOf, JoinPath;
  }

  lemma CommandStarted(nodes: seq<Node>, cwd: string, piping: bool, rest: seq<Launch>)
    requires nodes != [] && nodes[0].Run? && (|nodes| > 1 ==> IsOp(nodes[1]))
    requires rest == [] || (|nodes| > 1 && StartedInOrder(rest, Places(nodes[2..], cwd)))
    ensures StartedInOrder([LaunchOf(nodes[0].cmd, cwd, piping)] + rest, Places(nodes, cwd))
  {
    hide StartedAs, LaunchOf, JoinPath;
    var cmd := nodes[0].cmd;
    LaunchIsStartedAs(cmd, cwd, piping);
    if |nodes| == 1 {
      OneMorePlace(LaunchOf(cmd, cwd, piping), Place(cmd, cwd), rest, []);
    } else {
      PlacesOfPair(nodes, cwd);
      OneMorePlace(LaunchOf(cmd, cwd, piping), Place(cmd, cwd), rest, Places(nodes[2..], cwd));
    }
  }

  lemma Nothing(places: seq<Place>)
    ensures StartedInOrder([], places)
  {
  }
}
