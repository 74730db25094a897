/** Whole runs of the test runner's pool: no job is lost or duplicated, the counts add up, and every run ends. */
module WorkerRuns {
  import opened WorkerPool

  ghost predicate Steps(plan: Plan, s: Pool, s': Pool) {
    exists step :: Enabled(plan, s, step) && Apply(plan, s, step) == s'
  }

  /** A run from the start of the workers, in any interleaving and with an interrupt at any moment. */
  ghost predicate IsRun(plan: Plan, run: seq<Pool>) {
    var n := |run| - 1;
    if n <= 0 then n == 0 && Init(run[0])
    else IsRun(plan, run[..n]) && Steps(plan, run[n - 1], run[n])
  }

  lemma {:induction false} RunInv(plan: Plan, run: seq<Pool>)
    requires IsRun(plan, run)
    ensures Inv(plan, run[|run| - 1])
  {
    hide Inv, Apply, Enabled;
    var n := |run| - 1;
    if n == 0 {
      InitInv(plan, run[0]);
    } else {
      RunInv(plan, run[..n]);
      var step :| Enabled(plan, run[n - 1], step) && Apply(plan, run[n - 1], step) == run[n];
      StepKeepsInv(plan, run[n - 1], step);
    }
  }

  // ---------------------------------------------------------------- conservation

  /** How many copies of a ticket there are in the queues, in the workers' hands and with the collector. */
  function Copies(s: Pool, id: nat): nat {
    Jobs(s.input, id, id + 1) + Hands(s.workers, id, id + 1)
    + Jobs(s.output, id, id + 1) + Jobs(s.collected, id, id + 1)
  }

  lemma {:induction false} QueuedOnce(plan: Plan, input: seq<Job>, first: nat, id: nat)
    requires forall k :: 0 <= k < |input| ==> input[k] == Ticket(plan, first + k)
    ensures Jobs(input, id, id + 1) == if first <= id < first + |input| then 1 else 0
  {
    if input != [] {
      QueuedOnce(plan, input[..|input| - 1], first, id);
    }
  }

  /** In every state of every run each job that was put exists exactly once. */
  lemma EveryRunConserves(plan: Plan, run: seq<Pool>, id: nat)
    requires IsRun(plan, run)
    ensures var s := run[|run| - 1]; Copies(s, id) == if id < s.put then 1 else 0
  {
    hide Jobs, Hands, ContentOk, MainOk;
    RunInv(plan, run);
    var s := run[|run| - 1];
    QueuedOnce(plan, s.input, s.put - |s.input|, id);
    assert Overlap(id, id + 1, Taken(s)) == if id < Taken(s) then 1 else 0;
  }

  /** A run with the step taken between any two states. */
  ghost predicate Takes(plan: Plan, run: seq<Pool>, steps: seq<Step>) {
    && |run| == |steps| + 1 && Init(run[0])
    && forall k :: 0 <= k < |steps| ==> Enabled(plan, run[k], steps[k]) && Apply(plan, run[k], steps[k]) == run[k + 1]
  }

  /** The step starts the process of this job. */
  ghost predicate StartsProcess(s: Pool, step: Step, id: nat) {
    && step.Begin? && step.w < |s.workers| && s.workers[step.w].Cleared?
    && !s.workers[step.w].job.isSkip && s.workers[step.w].job.id == id
  }

  lemma {:induction false} TakesInv(plan: Plan, run: seq<Pool>, steps: seq<Step>, k: nat)
    requires Takes(plan, run, steps) && k < |run|
    ensures Inv(plan, run[k])
  {
    hide Inv, Apply, Enabled, Init;
    if k == 0 {
      InitInv(plan, run[0]);
    } else {
      TakesInv(plan, run, steps, k - 1);
      assert Apply(plan, run[k - 1], steps[k - 1]) == run[k - 1 + 1];
      StepKeepsInv(plan, run[k - 1], steps[k - 1]);
    }
  }

  /** Once started, for ever among the launched. */
  lemma {:induction false} StaysLaunched(plan: Plan, run: seq<Pool>, steps: seq<Step>, i: nat, k: nat, id: nat)
    requires Takes(plan, run, steps) && i < k < |run| && StartsProcess(run[i], steps[i], id)
    ensures id in run[k].launched
    decreases k
  {
    if i < k - 1 {
      StaysLaunched(plan, run, steps, i, k - 1, id);
    }
    assert Apply(plan, run[k - 1], steps[k - 1]) == run[k - 1 + 1];
  }

  /** A process is started only for a job that was not launched before and is not to be skipped. */
  lemma LaunchedOnce(plan: Plan, s: Pool, w: nat)
    requires Inv(plan, s) && Enabled(plan, s, Begin(w)) && Apply(plan, s, Begin(w)).workers[w].Running?
    ensures s.workers[w].job.id !in s.launched && !plan[s.workers[w].job.id].isSkip
    ensures Apply(plan, s, Begin(w)).launched == s.launched + {s.workers[w].job.id}
    ensures forall k :: 0 <= k < |s.collected| && s.collected[k].id in s.launched
                        ==> !s.collected[k].isBreak && !s.collected[k].isSkip
  {
    hide Hands, Jobs, Tallied, EachOnce, QueueOk, MainOk;
  }

  lemma StartIsLaunch(plan: Plan, s: Pool, step: Step, id: nat)
    requires Inv(plan, s) && StartsProcess(s, step, id)
    ensures id !in s.launched
  {
    hide Hands, Jobs, Tallied, EachOnce, QueueOk, MainOk, Inv;
    LaunchedOnce(plan, s, step.w);
  }

  lemma ResultsTellLaunches(plan: Plan, s: Pool)
    requires Inv(plan, s)
    ensures forall k :: 0 <= k < |s.collected| ==>
      (s.collected[k].id in s.launched <==> !s.collected[k].isBreak && !s.collected[k].isSkip)
  {
    hide Hands, Jobs, Tallied, EachOnce, QueueOk, MainOk;
  }

  /** In no run does a job's process start twice, nor at all if the job is handed back as skipped or as a break. */
  lemma StartedAtMostOnce(plan: Plan, run: seq<Pool>, steps: seq<Step>, i: nat, id: nat)
    requires Takes(plan, run, steps) && i < |steps| && StartsProcess(run[i], steps[i], id)
    ensures forall j :: 0 <= j < |steps| && j != i ==> !StartsProcess(run[j], steps[j], id)
    ensures var last := run[|run| - 1];
            forall k :: 0 <= k < |last.collected| && last.collected[k].id == id
                        ==> !last.collected[k].isBreak && !last.collected[k].isSkip
  {
    hide Inv, Apply, Enabled, Init, Takes, StartsProcess;
    TakesLengths(plan, run, steps);
    forall j | 0 <= j < |steps| && j != i ensures !StartsProcess(run[j], steps[j], id) {
      if StartsProcess(run[j], steps[j], id) {
        var first, later := if i < j then i else j, if i < j then j else i;
        StaysLaunched(plan, run, steps, first, later, id);
        TakesInv(plan, run, steps, later);
        StartIsLaunch(plan, run[later], steps[later], id);
      }
    }
    StaysLaunched(plan, run, steps, i, |run| - 1, id);
    TakesInv(plan, run, steps, |run| - 1);
    ResultsTellLaunches(plan, run[|run| - 1]);
  }

  lemma TakesLengths(plan: Plan, run: seq<Pool>, steps: seq<Step>)
    requires Takes(plan, run, steps)
    ensures |run| == |steps| + 1
  {
  }

  // ---------------------------------------------------------------- after an interrupt

  /** Of the tasks from `first` on none is past the check of the flag, except to be handed back as a break. */
  ghost predicate HeldBack(plan: Plan, s: Pool, first: int) {
    && s.threadExit && first <= Taken(s)
    && (forall w :: 0 <= w < |s.workers| && !s.workers[w].Waiting? && first <= s.workers[w].job.id < |plan| ==>
          s.workers[w].Holding? || (s.workers[w].Finished? && s.workers[w].job.isBreak))
    && (forall k :: 0 <= k < |s.output| && first <= s.output[k].id ==> s.output[k].isBreak)
    && (forall k :: 0 <= k < |s.collected| && first <= s.collected[k].id ==> s.collected[k].isBreak)
    && (forall id :: id in s.launched ==> id < first)
  }

  lemma NothingTakenYet(plan: Plan, s: Pool)
    requires Inv(plan, s) && s.threadExit
    ensures HeldBack(plan, s, Taken(s))
  {
    hide Tallied, ContentOk, MainOk;
    forall w | 0 <= w < |s.workers| && !s.workers[w].Waiting? ensures s.workers[w].job.id < Taken(s) {
      HeldAlone(s, w);
    }
    forall k | 0 <= k < |s.output| ensures s.output[k].id < Taken(s) {
      TakenBefore(s, s.output, k);
    }
    forall k | 0 <= k < |s.collected| ensures s.collected[k].id < Taken(s) {
      TakenBefore(s, s.collected, k);
    }
    LaunchedBefore(plan, s);
  }

  lemma TakenBefore(s: Pool, jobs: seq<Job>, k: nat)
    requires EachOnce(s.workers, s.output, s.collected, Taken(s)) && (jobs == s.output || jobs == s.collected)
    requires k < |jobs|
    ensures jobs[k].id < Taken(s)
  {
    hide Hands, Jobs;
    var id := jobs[k].id;
    JobsAtLeast(jobs, k, id, id + 1);
  }

  lemma LaunchedBefore(plan: Plan, s: Pool)
    requires Inv(plan, s)
    ensures forall id :: id in s.launched ==> id < Taken(s)
  {
    hide Hands, Jobs, Tallied, EachOnce, QueueOk, MainOk;
  }

  lemma StepHoldsBack(plan: Plan, s: Pool, step: Step, first: int)
    requires Inv(plan, s) && Enabled(plan, s, step) && HeldBack(plan, s, first)
    ensures HeldBack(plan, Apply(plan, s, step), first)
  {
    hide Hands, Jobs, Tallied, EachOnce, MainOk;
    if step.Get? {
      assert s.input[0] == Ticket(plan, Taken(s));
    } else if step.Check? || step.Begin? || step.End? || step.Report? {
      assert WorkerOk(plan, s.workers[step.w], s.threadExit, s.launched);
    }
  }

  lemma {:induction false} RunHoldsBack(plan: Plan, run: seq<Pool>, steps: seq<Step>, i: nat, k: nat)
    requires Takes(plan, run, steps) && i <= k < |run| && run[i].threadExit
    ensures HeldBack(plan, run[k], Taken(run[i]))
    decreases k - i
  {
    hide Inv, Apply, Enabled, Init, HeldBack, Taken;
    if i == k {
      TakesInv(plan, run, steps, i);
      NothingTakenYet(plan, run[i]);
    } else {
      RunHoldsBack(plan, run, steps, i, k - 1);
      TakesInv(plan, run, steps, k - 1);
      assert Apply(plan, run[k - 1], steps[k - 1]) == run[k - 1 + 1];
      StepHoldsBack(plan, run[k - 1], steps[k - 1], Taken(run[i]));
    }
  }

  /** A task that no worker has taken when the interrupt comes is never started, and is handed back as a break. */
  lemma NothingStartsAfterInterrupt(plan: Plan, run: seq<Pool>, steps: seq<Step>, i: nat, k: nat, id: nat)
    requires Takes(plan, run, steps) && i <= k < |run| && run[i].threadExit
    requires Taken(run[i]) <= id < |plan|
    ensures id !in run[k].launched
    ensures |run[k].collected| == |plan| ==> WasInterrupted(run[k], id)
  {
    hide Inv, Apply, Enabled, Init, Takes;
    RunHoldsBack(plan, run, steps, i, k);
    TakesInv(plan, run, steps, k);
    if |run[k].collected| == |plan| {
      EachCollectedOnce(plan, run[k], id);
      var j := CollectedAt(run[k].collected, id);
      assert run[k].collected[j].isBreak;
    }
  }

  // ---------------------------------------------------------------- the end of a run

  /** The main thread has joined every worker: each has ended on a stop job of its own. */
  ghost predicate EachStoppedOnce(plan: Plan, s: Pool) {
    && (forall w :: 0 <= w < |s.workers| ==>
          s.workers[w].Ended? && |plan| <= s.workers[w].job.id < |plan| + |s.workers|)
    && (forall v, w :: 0 <= v < |s.workers| && 0 <= w < |s.workers| && v != w ==>
          s.workers[v].job.id != s.workers[w].job.id)
  }

  lemma StopsAtEnd(plan: Plan, s: Pool)
    requires Inv(plan, s) && Final(plan, s)
    ensures EachStoppedOnce(plan, s)
  {
    forall w | 0 <= w < |s.workers|
      ensures s.workers[w].job.id < |plan| + |s.workers|
      ensures forall v :: 0 <= v < |s.workers| && v != w ==> s.workers[v].job.id != s.workers[w].job.id
    {
      HeldAlone(s, w);
    }
  }

  /** Once as many results as there are tasks have been collected, there is one for each task. */
  lemma EachCollectedOnce(plan: Plan, s: Pool, id: nat)
    requires Inv(plan, s) && |s.collected| == |plan| && id < |plan|
    ensures Jobs(s.collected, id, id + 1) == 1
  {
    JobsAll(s.collected, |plan|);
    SplitJobs(s.collected, 0, id, |plan|);
    SplitJobs(s.collected, id, id + 1, |plan|);
    assert Overlap(0, id, Taken(s)) <= id;
    assert Overlap(id, id + 1, Taken(s)) <= 1;
    assert Overlap(id + 1, |plan|, Taken(s)) <= |plan| - id - 1;
  }

  lemma {:induction false} SplitJobs(s: seq<Job>, lo: nat, mid: nat, hi: nat)
    requires lo <= mid <= hi
    ensures Jobs(s, lo, hi) == Jobs(s, lo, mid) + Jobs(s, mid, hi)
  {
    if s != [] {
      SplitJobs(s[..|s| - 1], lo, mid, hi);
    }
  }

  // ---------------------------------------------------------------- the counts

  ghost predicate WasInterrupted(s: Pool, id: nat) {
    exists k :: 0 <= k < |s.collected| && s.collected[k].id == id && s.collected[k].isBreak
  }

  /** What became of a task. */
  ghost function Fate(plan: Plan, s: Pool, id: nat): Verdict
    requires id < |plan|
  {
    Judge(plan[id].isSkip, WasInterrupted(s, id), plan[id].code)
  }

  ghost function Fates(plan: Plan, s: Pool): (f: seq<Verdict>)
    ensures |f| == |plan| && forall id :: 0 <= id < |plan| ==> f[id] == Fate(plan, s, id)
  {
    seq(|plan|, id requires 0 <= id < |plan| => Fate(plan, s, id))
  }

  function HowMany(fates: seq<Verdict>, v: Verdict): nat {
    if fates == [] then 0 else HowMany(fates[..|fates| - 1], v) + if fates[|fates| - 1] == v then 1 else 0
  }

  /** As `HowMany`, but each task weighs as much as it has results. */
  function Weighted(s: seq<Job>, fates: seq<Verdict>, v: Verdict): nat {
    if fates == [] then 0
    else
      Weighted(s, fates[..|fates| - 1], v) + if fates[|fates| - 1] == v then Jobs(s, |fates| - 1, |fates|) else 0
  }

  lemma {:induction false} WeightedNone(fates: seq<Verdict>, v: Verdict)
    ensures Weighted([], fates, v) == 0
  {
    if fates != [] {
      WeightedNone(fates[..|fates| - 1], v);
    }
  }

  lemma {:induction false} WeightedAppend(s: seq<Job>, job: Job, fates: seq<Verdict>, v: Verdict)
    ensures Weighted(s + [job], fates, v)
            == Weighted(s, fates, v) + if job.id < |fates| && fates[job.id] == v then 1 else 0
  {
    if fates != [] {
      WeightedAppend(s, job, fates[..|fates| - 1], v);
      JobsAppend(s, job, |fates| - 1, |fates|);
    }
  }

  /** The jobs hold exactly one for each of the first n tickets. */
  ghost predicate OneEach(s: seq<Job>, n: nat) {
    forall id: nat :: id < n ==> OneOf(s, id)
  }

  ghost predicate OneOf(s: seq<Job>, id: nat) {
    Jobs(s, id, id + 1) == 1
  }

  lemma {:induction false} WeightedOnce(s: seq<Job>, fates: seq<Verdict>, v: Verdict)
    requires OneEach(s, |fates|)
    ensures Weighted(s, fates, v) == HowMany(fates, v)
  {
    if fates != [] {
      WeightedOnce(s, fates[..|fates| - 1], v);
      assert OneOf(s, |fates| - 1);
    }
  }

  /** The collector's counters follow the verdicts of the results, in whatever order they come. */
  lemma {:induction false} TallyIsWeighted(jobs: seq<Job>, fates: seq<Verdict>, v: Verdict)
    requires forall k :: 0 <= k < |jobs| ==>
      jobs[k].id < |fates| && Judge(jobs[k].isSkip, jobs[k].isBreak, jobs[k].returncode) == fates[jobs[k].id]
    ensures CountOf(Tallied(jobs), v) == Weighted(jobs, fates, v)
  {
    hide Weighted, Counted, CountOf, Judge;
    if jobs == [] {
      WeightedNone(fates, v);
      NothingCounted(v);
    } else {
      var n := |jobs| - 1;
      TallyIsWeighted(jobs[..n], fates, v);
      WeightedAppend(jobs[..n], jobs[n], fates, v);
      OneCounted(Tallied(jobs[..n]), jobs[n], v);
      assert jobs == jobs[..n] + [jobs[n]];
    }
  }

  lemma NothingCounted(v: Verdict)
    ensures CountOf(NO_TALLY, v) == 0
  {
  }

  lemma OneCounted(t: Tally, job: Job, v: Verdict)
    ensures CountOf(Counted(t, job), v)
            == CountOf(t, v) + if Judge(job.isSkip, job.isBreak, job.returncode) == v then 1 else 0
  {
  }

  lemma ResultTellsFate(plan: Plan, s: Pool, k: nat)
    requires Inv(plan, s) && |s.collected| == |plan| && k < |s.collected|
    ensures var job := s.collected[k];
            job.id < |plan| && Judge(job.isSkip, job.isBreak, job.returncode) == Fate(plan, s, job.id)
  {
    var job := s.collected[k];
    EachCollectedOnce(plan, s, job.id);
    if WasInterrupted(s, job.id) {
      var j :| 0 <= j < |s.collected| && s.collected[j].id == job.id && s.collected[j].isBreak;
      SameResult(s.collected, j, k);
    }
  }

  lemma {:induction false} SameResult(s: seq<Job>, j: nat, k: nat)
    requires j < |s| && k < |s| && s[j].id == s[k].id && Jobs(s, s[j].id, s[j].id + 1) == 1
    ensures j == k
  {
    var n := |s| - 1;
    if j < n && k < n {
      JobsAtLeast(s[..n], j, s[j].id, s[j].id + 1);
      SameResult(s[..n], j, k);
    } else if j < n {
      JobsAtLeast(s[..n], j, s[j].id, s[j].id + 1);
    } else if k < n {
      JobsAtLeast(s[..n], k, s[j].id, s[j].id + 1);
    }
  }

  /** When all results are in, each counter is the number of tasks with that fate. */
  lemma CountsAreRight(plan: Plan, s: Pool, v: Verdict)
    requires Inv(plan, s) && |s.collected| == |plan|
    ensures CountOf(s.tally, v) == HowMany(Fates(plan, s), v)
  {
    hide Inv, Jobs, Tallied, HowMany, Weighted;
    var fates := Fates(plan, s);
    forall k | 0 <= k < |s.collected|
      ensures s.collected[k].id < |fates|
      ensures Judge(s.collected[k].isSkip, s.collected[k].isBreak, s.collected[k].returncode)
              == fates[s.collected[k].id]
    {
      ResultTellsFate(plan, s, k);
    }
    TallyIsWeighted(s.collected, fates, v);
    AllCollectedOnce(plan, s);
    WeightedOnce(s.collected, fates, v);
    TallyIsCurrent(plan, s);
  }

  lemma AllCollectedOnce(plan: Plan, s: Pool)
    requires Inv(plan, s) && |s.collected| == |plan|
    ensures OneEach(s.collected, |plan|)
  {
    forall id: nat | id < |plan| ensures OneOf(s.collected, id) {
      EachCollectedOnce(plan, s, id);
    }
  }

  lemma TallyIsCurrent(plan: Plan, s: Pool)
    requires Inv(plan, s)
    ensures s.tally == Tallied(s.collected)
  {
  }

  lemma {:induction false} FatesAddUp(fates: seq<Verdict>)
    ensures HowMany(fates, Pass) + HowMany(fates, Fail) + HowMany(fates, Valgrind) + HowMany(fates, Crash)
            + HowMany(fates, Skip) + HowMany(fates, Interrupted) == |fates|
    ensures HowMany(fates, Pass) + HowMany(fates, Skip) == |fates|
            <==> forall id :: 0 <= id < |fates| ==> fates[id] in {Pass, Skip}
  {
    if fates != [] {
      FatesAddUp(fates[..|fates| - 1]);
    }
  }

  /** How a run that has ended left things. */
  ghost predicate Accounted(plan: Plan, s: Pool) {
    var t := s.tally;
    && OneEach(s.collected, |plan|)
    && (forall v :: CountOf(t, v) == HowMany(Fates(plan, s), v))
    && t.passed + t.failed + t.valgrind + t.crashed + t.skipped + t.interrupted == |plan|
    && (ExitCode(plan, t) == 0 <==> forall id :: 0 <= id < |plan| ==> Fate(plan, s, id) in {Pass, Skip})
    && (!s.threadExit ==> forall id: nat :: !WasInterrupted(s, id))
  }

  /** Every run that has ended accounts for every task and has stopped every worker. */
  lemma EveryEndIsAccounted(plan: Plan, run: seq<Pool>)
    requires IsRun(plan, run) && Final(plan, run[|run| - 1])
    ensures Accounted(plan, run[|run| - 1]) && EachStoppedOnce(plan, run[|run| - 1])
  {
    hide Jobs, HowMany, Hands;
    RunInv(plan, run);
    var s := run[|run| - 1];
    StopsAtEnd(plan, s);
    AllCollectedOnce(plan, s);
    forall v ensures CountOf(s.tally, v) == HowMany(Fates(plan, s), v) {
      CountsAreRight(plan, s, v);
    }
    assert CountOf(s.tally, Pass) + CountOf(s.tally, Skip) == s.tally.passed + s.tally.skipped;
    assert CountOf(s.tally, Fail) + CountOf(s.tally, Valgrind) + CountOf(s.tally, Crash) + CountOf(s.tally, Interrupted)
           == s.tally.failed + s.tally.valgrind + s.tally.crashed + s.tally.interrupted;
    FatesAddUp(Fates(plan, s));
  }

  // ---------------------------------------------------------------- the counts, by return code

  /** How many of the first n tasks were launched and ended with this status. */
  ghost function EndedWith(plan: Plan, launched: set<nat>, n: nat, code: int): nat
    requires n <= |plan|
  {
    if n == 0 then 0
    else EndedWith(plan, launched, n - 1, code) + if n - 1 in launched && plan[n - 1].code == code then 1 else 0
  }

  /** How many of them were launched and ended with a status of their own: none of 0, 1 and 2. */
  ghost function EndedOddly(plan: Plan, launched: set<nat>, n: nat): nat
    requires n <= |plan|
  {
    if n == 0 then 0
    else EndedOddly(plan, launched, n - 1) + if n - 1 in launched && plan[n - 1].code !in {0, 1, 2} then 1 else 0
  }

  /** How many of them were not launched, and handed back as a break or not. */
  ghost function NotRun(plan: Plan, s: Pool, n: nat, broken: bool): nat
    requires n <= |plan|
  {
    if n == 0 then 0
    else NotRun(plan, s, n - 1, broken) + if n - 1 !in s.launched && WasInterrupted(s, n - 1) == broken then 1 else 0
  }

  /** At the end a task was launched iff it was not to be skipped and was not handed back as a break. */
  lemma LaunchedAtEnd(plan: Plan, s: Pool, id: nat)
    requires Inv(plan, s) && |s.collected| == |plan| && id < |plan|
    ensures id in s.launched <==> !WasInterrupted(s, id) && !plan[id].isSkip
  {
    hide Hands, EachOnce, Tallied;
    EachCollectedOnce(plan, s, id);
    var k := CollectedAt(s.collected, id);
    assert ResultOk(plan, s.collected[k], s.threadExit, s.launched);
    ResultTellsFate(plan, s, k);
    if WasInterrupted(s, id) {
      var j :| 0 <= j < |s.collected| && s.collected[j].id == id && s.collected[j].isBreak;
      SameResult(s.collected, j, k);
    }
  }

  lemma {:induction false} CollectedAt(s: seq<Job>, id: nat) returns (k: nat)
    requires Jobs(s, id, id + 1) > 0
    ensures k < |s| && s[k].id == id
  {
    var n := |s| - 1;
    if s[n].id == id {
      k := n;
    } else {
      k := CollectedAt(s[..n], id);
    }
  }

  lemma {:induction false} FatesByCode(plan: Plan, s: Pool, n: nat)
    requires Inv(plan, s) && |s.collected| == |plan| && n <= |plan|
    ensures var fates := Fates(plan, s)[..n];
            && HowMany(fates, Pass) == EndedWith(plan, s.launched, n, 0)
            && HowMany(fates, Fail) == EndedWith(plan, s.launched, n, 1)
            && HowMany(fates, Valgrind) == EndedWith(plan, s.launched, n, 2)
            && HowMany(fates, Crash) == EndedOddly(plan, s.launched, n)
            && HowMany(fates, Skip) == NotRun(plan, s, n, false)
            && HowMany(fates, Interrupted) == NotRun(plan, s, n, true)
  {
    hide Inv, WasInterrupted;
    if n > 0 {
      FatesByCode(plan, s, n - 1);
      LaunchedAtEnd(plan, s, n - 1);
      assert Fates(plan, s)[..n][..n - 1] == Fates(plan, s)[..n - 1];
      assert Fates(plan, s)[..n][n - 1] == Fate(plan, s, n - 1);
    }
  }

  /**
   * At the end of any run the counters say, of the tasks whose processes ran, how many ended with 0, with 1, with 2
   * and with anything else, and of the others how many were handed back as a break and how many not.
   */
  lemma CountersByCode(plan: Plan, run: seq<Pool>)
    requires IsRun(plan, run) && Final(plan, run[|run| - 1])
    ensures var s, n := run[|run| - 1], |plan|;
            && s.tally.passed == EndedWith(plan, s.launched, n, 0)
            && s.tally.failed == EndedWith(plan, s.launched, n, 1)
            && s.tally.valgrind == EndedWith(plan, s.launched, n, 2)
            && s.tally.crashed == EndedOddly(plan, s.launched, n)
            && s.tally.skipped == NotRun(plan, s, n, false)
            && s.tally.interrupted == NotRun(plan, s, n, true)
  {
    hide Inv, HowMany, Fates, EndedWith, EndedOddly, NotRun;
    RunInv(plan, run);
    var s := run[|run| - 1];
    FatesByCode(plan, s, |plan|);
    assert Fates(plan, s)[..|plan|] == Fates(plan, s);
    forall v ensures CountOf(s.tally, v) == HowMany(Fates(plan, s), v) {
      CountsAreRight(plan, s, v);
    }
    assert CountOf(s.tally, Pass) == s.tally.passed && CountOf(s.tally, Fail) == s.tally.failed;
    assert CountOf(s.tally, Valgrind) == s.tally.valgrind && CountOf(s.tally, Crash) == s.tally.crashed;
    assert CountOf(s.tally, Skip) == s.tally.skipped && CountOf(s.tally, Interrupted) == s.tally.interrupted;
  }

  /** The collector's loop and the exit status, over the results in the order in which they arrive. */
  method CollectResults(results: seq<Job>, totalTests: nat) returns (tally: Tally, code: int)
    ensures tally == Tallied(results)
    ensures totalTests == |results| ==>
      (code == 0 <==> forall k :: 0 <= k < |results| ==>
        !results[k].isBreak && (results[k].isSkip || results[k].returncode == 0))
    ensures code in {0, 1}
  {
    var passed, failed, crashed, valgrind, skipped := 0, 0, 0, 0, 0;
    ghost var interrupted := 0;
    for i := 0 to |results|
      invariant Tally(passed, failed, valgrind, crashed, skipped, interrupted) == Tallied(results[..i])
      invariant passed + failed + valgrind + crashed + skipped + interrupted == i
      invariant passed + skipped == i <==>
        forall k :: 0 <= k < i ==> !results[k].isBreak && (results[k].isSkip || results[k].returncode == 0)
    {
      var job := results[i];
      assert results[..i + 1][..i] == results[..i];
      if job.isBreak {
        interrupted := interrupted + 1;
        continue;
      }
      if job.isSkip {
        skipped := skipped + 1;
      } else if job.returncode == 0 {
        passed := passed + 1;
      } else if job.returncode == 1 {
        failed := failed + 1;
      } else if job.returncode == 2 {
        valgrind := valgrind + 1;
      } else {
        crashed := crashed + 1;
      }
    }
    assert results[..|results|] == results;
    tally := Tally(passed, failed, valgrind, crashed, skipped,
                   |results| - passed - failed - valgrind - crashed - skipped);
    if passed + skipped == totalTests {
      code := 0;
    } else {
      code := 1;
    }
  }

  // ---------------------------------------------------------------- every run ends

  function Rank(w: Worker): nat {
    match w
    case Waiting => 0
    case Holding(_) => 5
    case Cleared(_) => 4
    case Running(_) => 3
    case Finished(_) => 2
    case Ended(_) => 0
  }

  function Ranks(ws: seq<Worker>): nat {
    if ws == [] then 0 else Ranks(ws[..|ws| - 1]) + Rank(ws[|ws| - 1])
  }

  /** How many steps may still come. */
  function Work(plan: Plan, s: Pool): int {
    7 * (Total(plan, s) - s.put) + 6 * |s.input| + Ranks(s.workers) + |s.output| + (|s.workers| - s.joined)
    + if s.threadExit then 0 else 1
  }

  lemma {:induction false} RanksUpdate(ws: seq<Worker>, w: nat, x: Worker)
    requires w < |ws|
    ensures Ranks(ws[w := x]) == Ranks(ws) - Rank(ws[w]) + Rank(x)
  {
    var n := |ws| - 1;
    if w < n {
      RanksUpdate(ws[..n], w, x);
      assert ws[w := x][..n] == ws[..n][w := x];
    } else {
      assert ws[w := x][..n] == ws[..n];
    }
  }

  lemma StepTakesWork(plan: Plan, s: Pool, step: Step)
    requires Enabled(plan, s, step)
    ensures Work(plan, Apply(plan, s, step)) < Work(plan, s)
    ensures |Apply(plan, s, step).workers| == |s.workers|
  {
    hide Ranks;
    var s' := Apply(plan, s, step);
    if step.Get? || step.Check? || step.Begin? || step.End? || step.Report? {
      RanksUpdate(s.workers, step.w, s'.workers[step.w]);
    }
  }

  lemma WorkIsNat(plan: Plan, s: Pool)
    requires Inv(plan, s)
    ensures Work(plan, s) >= 0
  {
  }

  lemma WorkAtStart(plan: Plan, s: Pool)
    requires Init(s)
    ensures Work(plan, s) <= 7 * |plan| + 8 * |s.workers| + 1
  {
    NoRanks(s.workers);
  }

  /** A run takes at most seven steps for each task, eight for each worker, and one for the interrupt. */
  lemma {:induction false} EveryRunIsFinite(plan: Plan, run: seq<Pool>)
    requires IsRun(plan, run)
    ensures |run[|run| - 1].workers| == |run[0].workers|
    ensures Work(plan, run[|run| - 1]) >= 0
    ensures |run| - 1 + Work(plan, run[|run| - 1]) <= 7 * |plan| + 8 * |run[0].workers| + 1
  {
    var n := |run| - 1;
    hide Inv, Apply, Enabled, Init, Work;
    RunInv(plan, run);
    WorkIsNat(plan, run[n]);
    if n == 0 {
      WorkAtStart(plan, run[0]);
    } else {
      EveryRunIsFinite(plan, run[..n]);
      var step :| Enabled(plan, run[n - 1], step) && Apply(plan, run[n - 1], step) == run[n];
      StepTakesWork(plan, run[n - 1], step);
    }
  }

  lemma {:induction false} NoRanks(ws: seq<Worker>)
    requires forall w :: 0 <= w < |ws| ==> ws[w] == Waiting
    ensures Ranks(ws) == 0
  {
    if ws != [] {
      NoRanks(ws[..|ws| - 1]);
    }
  }

  /** With the queue empty after the last stop job, no worker is left waiting and no job is in hand. */
  lemma AllStopped(plan: Plan, s: Pool)
    requires Inv(plan, s) && AllPut(plan, s) && s.input == []
    requires forall w :: 0 <= w < |s.workers| ==> s.workers[w].Waiting? || s.workers[w].Ended?
    ensures forall w :: 0 <= w < |s.workers| ==> s.workers[w].Ended?
    ensures |s.output| + |s.collected| == |plan|
  {
    HandsNone(s.workers, 0, |plan|);
    JobsAll(s.output, |plan|);
    JobsAll(s.collected, |plan|);
    NoJobs(s.output, |plan|, Total(plan, s));
    NoJobs(s.collected, |plan|, Total(plan, s));
    HandsAtMost(s.workers, |plan|, Total(plan, s));
    assert Overlap(|plan|, Total(plan, s), Taken(s)) == |s.workers|;
    assert forall w :: 0 <= w < |s.workers| ==> Hand(s.workers[w], |plan|, Total(plan, s)) == 1;
  }

  lemma {:induction false} NoJobs(s: seq<Job>, lo: nat, hi: nat)
    requires forall k :: 0 <= k < |s| ==> s[k].id < lo
    ensures Jobs(s, lo, hi) == 0
  {
    if s != [] {
      NoJobs(s[..|s| - 1], lo, hi);
    }
  }

  /** If every worker has ended, the queue is empty. */
  lemma NothingLeft(plan: Plan, s: Pool)
    requires Inv(plan, s) && AllPut(plan, s) && |s.workers| > 0
    requires forall w :: 0 <= w < |s.workers| ==> s.workers[w].Ended?
    ensures s.input == []
  {
    NoJobs(s.output, |plan|, Total(plan, s));
    NoJobs(s.collected, |plan|, Total(plan, s));
    HandsAtMost(s.workers, |plan|, Total(plan, s));
    forall w | 0 <= w < |s.workers| ensures Hand(s.workers[w], |plan|, Total(plan, s)) == 1 {
      HeldAlone(s, w);
    }
    assert Overlap(|plan|, Total(plan, s), Taken(s)) == |s.workers|;
  }

  /** Some thread can move until the end, provided there is a worker to do the work. */
  lemma NeverStuck(plan: Plan, s: Pool) returns (step: Step)
    requires Inv(plan, s) && !Final(plan, s)
    requires |s.workers| > 0 || plan == []
    ensures Enabled(plan, s, step) && step != Interrupt
  {
    hide Hands, Jobs, EachOnce, Tallied;
    if !AllPut(plan, s) {
      return Put;
    }
    if w :| 0 <= w < |s.workers| && !s.workers[w].Waiting? && !s.workers[w].Ended? {
      assert WorkerOk(plan, s.workers[w], s.threadExit, s.launched);
      return if s.workers[w].Holding? then Check(w)
             else if s.workers[w].Cleared? then Begin(w)
             else if s.workers[w].Running? then End(w)
             else Report(w);
    }
    if s.input != [] {
      if w :| 0 <= w < |s.workers| && s.workers[w].Waiting? {
        return Get(w);
      }
      NothingLeft(plan, s);
    }
    AllStopped(plan, s);
    step := if |s.collected| < |plan| then Collect else Join;
  }

  /** Without any worker a plan with tasks cannot be finished: the collector waits for ever. */
  lemma {:induction false} NoWorkersNoEnd(plan: Plan, run: seq<Pool>)
    requires IsRun(plan, run) && run[0].workers == [] && plan != []
    ensures var s := run[|run| - 1]; s.workers == [] && s.output == [] && s.collected == [] && !Final(plan, s)
  {
    var n := |run| - 1;
    if n > 0 {
      NoWorkersNoEnd(plan, run[..n]);
    }
  }
}
