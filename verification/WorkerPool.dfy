/** The job protocol of the test runner: a dispatcher, any number of workers, and a collector. */
module WorkerPool {

  /** A job to dispatch; `code` is the exit status that its process ends with whenever it is launched. */
  datatype Task = Task(isSkip: bool, code: int)

  type Plan = seq<Task>

  /** `id` tells apart the objects that the queues hand on: the tasks first, then the stop jobs. */
  datatype Job = Job(id: nat, isSkip: bool, isBreak: bool, returncode: int)

  /** Where a worker is in its loop, and the job that it has in hand. */
  datatype Worker =
    | Waiting
    | Holding(job: Job)
    | Cleared(job: Job)
    | Running(job: Job)
    | Finished(job: Job)
    | Ended(job: Job)

  datatype Tally = Tally(passed: nat, failed: nat, valgrind: nat, crashed: nat, skipped: nat, interrupted: nat)

  /** `launched` is a history of the processes that were started. */
  datatype Pool = Pool(
    put: nat, input: seq<Job>, workers: seq<Worker>, output: seq<Job>, collected: seq<Job>,
    tally: Tally, joined: nat, threadExit: bool, launched: set<nat>)

  datatype Step =
    | Put
    | Get(w: nat)
    | Check(w: nat)
    | Begin(w: nat)
    | End(w: nat)
    | Report(w: nat)
    | Collect
    | Join
    | Interrupt

  // ---------------------------------------------------------------- the protocol

  /** The i-th job that the main thread puts: the tasks in order, then one stop job for each worker. */
  function Ticket(plan: Plan, i: nat): Job {
    if i < |plan| then Job(i, plan[i].isSkip, false, 0) else Job(i, false, true, 0)
  }

  function Total(plan: Plan, s: Pool): nat {
    |plan| + |s.workers|
  }

  datatype Verdict = Pass | Fail | Valgrind | Crash | Skip | Interrupted

  function Judge(isSkip: bool, isBreak: bool, returncode: int): Verdict {
    if isBreak then Interrupted
    else if isSkip then Skip
    else match returncode
      case 0 => Pass
      case 1 => Fail
      case 2 => Valgrind
      case _ => Crash
  }

  function CountOf(t: Tally, v: Verdict): nat {
    match v
    case Pass => t.passed
    case Fail => t.failed
    case Valgrind => t.valgrind
    case Crash => t.crashed
    case Skip => t.skipped
    case Interrupted => t.interrupted
  }

  /** What the collector's loop does with one job that it took from the output queue. */
  function Counted(t: Tally, job: Job): Tally {
    if job.isBreak then t.(interrupted := t.interrupted + 1)
    else if job.isSkip then t.(skipped := t.skipped + 1)
    else if job.returncode == 0 then t.(passed := t.passed + 1)
    else if job.returncode == 1 then t.(failed := t.failed + 1)
    else if job.returncode == 2 then t.(valgrind := t.valgrind + 1)
    else t.(crashed := t.crashed + 1)
  }

  function ExitCode(plan: Plan, t: Tally): int {
    if t.passed + t.skipped == |plan| then 0 else 1
  }

  predicate AllPut(plan: Plan, s: Pool) {
    s.put == Total(plan, s)
  }

  predicate AllCollected(plan: Plan, s: Pool) {
    AllPut(plan, s) && |s.collected| == |plan|
  }

  predicate Final(plan: Plan, s: Pool) {
    AllCollected(plan, s) && s.joined == |s.workers|
  }

  predicate Enabled(plan: Plan, s: Pool, step: Step) {
    match step
    case Put => s.put < Total(plan, s)
    case Get(w) => w < |s.workers| && s.workers[w].Waiting? && s.input != []
    case Check(w) => w < |s.workers| && s.workers[w].Holding?
    case Begin(w) => w < |s.workers| && s.workers[w].Cleared?
    case End(w) => w < |s.workers| && s.workers[w].Running? && s.workers[w].job.id < |plan|
    case Report(w) => w < |s.workers| && s.workers[w].Finished?
    case Collect => AllPut(plan, s) && |s.collected| < |plan| && s.output != []
    case Join => AllCollected(plan, s) && s.joined < |s.workers| && s.workers[s.joined].Ended?
    case Interrupt => !s.threadExit
  }

  /** A stop job ends the worker, even during an interrupt; an interrupt turns any other job into a break. */
  function Checked(job: Job, threadExit: bool): Worker {
    if job.isBreak then Ended(job)
    else if threadExit then Finished(job.(isBreak := true))
    else Cleared(job)
  }

  function Apply(plan: Plan, s: Pool, step: Step): Pool
    requires Enabled(plan, s, step)
  {
    match step
    case Put => s.(put := s.put + 1, input := s.input + [Ticket(plan, s.put)])
    case Get(w) => s.(workers := s.workers[w := Holding(s.input[0])], input := s.input[1..])
    case Check(w) => s.(workers := s.workers[w := Checked(s.workers[w].job, s.threadExit)])
    case Begin(w) =>
      var job := s.workers[w].job;
      if job.isSkip then s.(workers := s.workers[w := Finished(job)])
      else s.(workers := s.workers[w := Running(job)], launched := s.launched + {job.id})
    case End(w) =>
      var job := s.workers[w].job;
      s.(workers := s.workers[w := Finished(job.(returncode := plan[job.id].code))])
    case Report(w) => s.(workers := s.workers[w := Waiting], output := s.output + [s.workers[w].job])
    case Collect =>
      s.(output := s.output[1..], collected := s.collected + [s.output[0]], tally := Counted(s.tally, s.output[0]))
    case Join => s.(joined := s.joined + 1)
    case Interrupt => s.(threadExit := true)
  }

  const NO_TALLY := Tally(0, 0, 0, 0, 0, 0)

  /** The workers have been started; the interrupt may already have come. */
  predicate Init(s: Pool) {
    && s.put == 0 && s.input == [] && s.output == [] && s.collected == []
    && (forall w :: 0 <= w < |s.workers| ==> s.workers[w] == Waiting)
    && s.tally == NO_TALLY && s.joined == 0 && s.launched == {}
  }

  // ---------------------------------------------------------------- counting tickets

  function Within(lo: nat, hi: nat, id: nat): nat {
    if lo <= id < hi then 1 else 0
  }

  function Jobs(s: seq<Job>, lo: nat, hi: nat): nat {
    if s == [] then 0 else Jobs(s[..|s| - 1], lo, hi) + Within(lo, hi, s[|s| - 1].id)
  }

  function Hand(w: Worker, lo: nat, hi: nat): nat {
    if w.Waiting? then 0 else Within(lo, hi, w.job.id)
  }

  function Hands(ws: seq<Worker>, lo: nat, hi: nat): nat {
    if ws == [] then 0 else Hands(ws[..|ws| - 1], lo, hi) + Hand(ws[|ws| - 1], lo, hi)
  }

  function Taken(s: Pool): int {
    s.put - |s.input|
  }

  function Overlap(lo: nat, hi: nat, n: int): int {
    if n <= lo then 0 else if n < hi then n - lo else hi - lo
  }

  lemma {:induction false} HandsUpdate(ws: seq<Worker>, w: nat, x: Worker, lo: nat, hi: nat)
    requires w < |ws|
    ensures Hands(ws[w := x], lo, hi) == Hands(ws, lo, hi) - Hand(ws[w], lo, hi) + Hand(x, lo, hi)
  {
    var n := |ws| - 1;
    if w < n {
      HandsUpdate(ws[..n], w, x, lo, hi);
      assert ws[w := x][..n] == ws[..n][w := x];
    } else {
      assert ws[w := x][..n] == ws[..n];
    }
  }

  lemma {:induction false} HandsAtLeast(ws: seq<Worker>, w: nat, lo: nat, hi: nat)
    requires w < |ws|
    ensures Hands(ws, lo, hi) >= Hand(ws[w], lo, hi)
  {
    if w < |ws| - 1 {
      HandsAtLeast(ws[..|ws| - 1], w, lo, hi);
    }
  }

  lemma HandsTwo(ws: seq<Worker>, v: nat, w: nat, lo: nat, hi: nat)
    requires v < |ws| && w < |ws| && v != w
    ensures Hands(ws, lo, hi) >= Hand(ws[v], lo, hi) + Hand(ws[w], lo, hi)
  {
    HandsUpdate(ws, w, Waiting, lo, hi);
    HandsAtLeast(ws[w := Waiting], v, lo, hi);
  }

  lemma {:induction false} HandsAtMost(ws: seq<Worker>, lo: nat, hi: nat)
    ensures Hands(ws, lo, hi) <= |ws|
    ensures Hands(ws, lo, hi) == |ws| <==> forall w :: 0 <= w < |ws| ==> Hand(ws[w], lo, hi) == 1
  {
    if ws != [] {
      HandsAtMost(ws[..|ws| - 1], lo, hi);
    }
  }

  lemma {:induction false} HandsNone(ws: seq<Worker>, lo: nat, hi: nat)
    requires forall w :: 0 <= w < |ws| ==> Hand(ws[w], lo, hi) == 0
    ensures Hands(ws, lo, hi) == 0
  {
    if ws != [] {
      HandsNone(ws[..|ws| - 1], lo, hi);
    }
  }

  lemma JobsAppend(s: seq<Job>, job: Job, lo: nat, hi: nat)
    ensures Jobs(s + [job], lo, hi) == Jobs(s, lo, hi) + Within(lo, hi, job.id)
  {
    assert (s + [job])[..|s|] == s;
  }

  lemma {:induction false} JobsTail(s: seq<Job>, lo: nat, hi: nat)
    requires s != []
    ensures Jobs(s, lo, hi) == Within(lo, hi, s[0].id) + Jobs(s[1..], lo, hi)
  {
    if |s| > 1 {
      JobsTail(s[..|s| - 1], lo, hi);
      assert s[1..][..|s| - 2] == s[..|s| - 1][1..];
    }
  }

  lemma {:induction false} JobsAtLeast(s: seq<Job>, k: nat, lo: nat, hi: nat)
    requires k < |s|
    ensures Jobs(s, lo, hi) >= Within(lo, hi, s[k].id)
  {
    if k < |s| - 1 {
      JobsAtLeast(s[..|s| - 1], k, lo, hi);
    }
  }

  lemma {:induction false} JobsAll(s: seq<Job>, n: nat)
    requires forall k :: 0 <= k < |s| ==> s[k].id < n
    ensures Jobs(s, 0, n) == |s|
  {
    if s != [] {
      JobsAll(s[..|s| - 1], n);
    }
  }

  // ---------------------------------------------------------------- the invariant

  /** The input queue is first-in first-out: it holds the tickets from the next one to take to the last one put. */
  ghost predicate QueueOk(plan: Plan, s: Pool) {
    && |s.input| <= s.put <= Total(plan, s)
    && forall k :: 0 <= k < |s.input| ==> s.input[k] == Ticket(plan, s.put - |s.input| + k)
  }

  /** Each ticket that has been taken is in exactly one hand or queue. */
  ghost predicate EachOnce(workers: seq<Worker>, output: seq<Job>, collected: seq<Job>, taken: int) {
    forall lo: nat, hi: nat | lo <= hi ::
      Hands(workers, lo, hi) + Jobs(output, lo, hi) + Jobs(collected, lo, hi) == Overlap(lo, hi, taken)
  }

  /** A job on its way back: it carries the status of its process exactly when it was launched. */
  ghost predicate ResultOk(plan: Plan, job: Job, threadExit: bool, launched: set<nat>) {
    && job.id < |plan| && job.isSkip == plan[job.id].isSkip
    && (job.isBreak ==> threadExit)
    && (job.id in launched <==> !job.isBreak && !job.isSkip)
    && (job.id in launched ==> job.returncode == plan[job.id].code)
  }

  ghost predicate WorkerOk(plan: Plan, w: Worker, threadExit: bool, launched: set<nat>) {
    match w
    case Waiting => true
    case Holding(job) => job == Ticket(plan, job.id) && job.id !in launched
    case Cleared(job) => job.id < |plan| && job == Ticket(plan, job.id) && job.id !in launched
    case Running(job) => job.id < |plan| && job == Ticket(plan, job.id) && !job.isSkip && job.id in launched
    case Finished(job) => ResultOk(plan, job, threadExit, launched)
    case Ended(job) => job.id >= |plan|
  }

  ghost predicate ContentOk(plan: Plan, s: Pool) {
    && (forall w :: 0 <= w < |s.workers| ==> WorkerOk(plan, s.workers[w], s.threadExit, s.launched))
    && (forall k :: 0 <= k < |s.output| ==> ResultOk(plan, s.output[k], s.threadExit, s.launched))
    && (forall k :: 0 <= k < |s.collected| ==> ResultOk(plan, s.collected[k], s.threadExit, s.launched))
    && (forall id :: id in s.launched ==> id < |plan| && id < Taken(s))
  }

  ghost predicate MainOk(plan: Plan, s: Pool) {
    && s.tally == Tallied(s.collected)
    && |s.collected| <= |plan| && s.joined <= |s.workers|
    && (s.collected != [] ==> AllPut(plan, s))
    && (s.joined > 0 ==> AllCollected(plan, s))
    && (forall w :: 0 <= w < s.joined ==> s.workers[w].Ended?)
  }

  ghost predicate Inv(plan: Plan, s: Pool) {
    && QueueOk(plan, s)
    && EachOnce(s.workers, s.output, s.collected, Taken(s))
    && ContentOk(plan, s)
    && MainOk(plan, s)
  }

  function Tallied(jobs: seq<Job>): Tally {
    if jobs == [] then NO_TALLY else Counted(Tallied(jobs[..|jobs| - 1]), jobs[|jobs| - 1])
  }

  lemma InitInv(plan: Plan, s: Pool)
    requires Init(s)
    ensures Inv(plan, s)
  {
    forall lo: nat, hi: nat | lo <= hi ensures Hands(s.workers, lo, hi) == 0 {
      HandsNone(s.workers, lo, hi);
    }
  }

  /** Taking a ticket, or moving one from hand to queue or from queue to queue, leaves each in one place. */
  lemma MoveInHand(s: Pool, w: nat, x: Worker)
    requires w < |s.workers| && EachOnce(s.workers, s.output, s.collected, Taken(s))
    requires !s.workers[w].Waiting? && !x.Waiting? && x.job.id == s.workers[w].job.id
    ensures EachOnce(s.workers[w := x], s.output, s.collected, Taken(s))
  {
    forall lo: nat, hi: nat | lo <= hi ensures Hands(s.workers[w := x], lo, hi) == Hands(s.workers, lo, hi) {
      HandsUpdate(s.workers, w, x, lo, hi);
    }
  }

  lemma TakeTicket(s: Pool, w: nat, job: Job)
    requires w < |s.workers| && EachOnce(s.workers, s.output, s.collected, Taken(s))
    requires s.workers[w].Waiting? && job.id == Taken(s)
    ensures EachOnce(s.workers[w := Holding(job)], s.output, s.collected, Taken(s) + 1)
  {
    forall lo: nat, hi: nat | lo <= hi
      ensures Hands(s.workers[w := Holding(job)], lo, hi) == Hands(s.workers, lo, hi) + Within(lo, hi, Taken(s)) {
      HandsUpdate(s.workers, w, Holding(job), lo, hi);
    }
  }

  lemma HandBack(s: Pool, w: nat)
    requires w < |s.workers| && EachOnce(s.workers, s.output, s.collected, Taken(s))
    requires !s.workers[w].Waiting?
    ensures EachOnce(s.workers[w := Waiting], s.output + [s.workers[w].job], s.collected, Taken(s))
  {
    forall lo: nat, hi: nat | lo <= hi
      ensures Hands(s.workers[w := Waiting], lo, hi) + Jobs(s.output + [s.workers[w].job], lo, hi)
              == Hands(s.workers, lo, hi) + Jobs(s.output, lo, hi) {
      HandsUpdate(s.workers, w, Waiting, lo, hi);
      JobsAppend(s.output, s.workers[w].job, lo, hi);
    }
  }

  lemma CollectOne(s: Pool)
    requires s.output != [] && EachOnce(s.workers, s.output, s.collected, Taken(s))
    ensures EachOnce(s.workers, s.output[1..], s.collected + [s.output[0]], Taken(s))
  {
    forall lo: nat, hi: nat | lo <= hi
      ensures Jobs(s.output[1..], lo, hi) + Jobs(s.collected + [s.output[0]], lo, hi)
              == Jobs(s.output, lo, hi) + Jobs(s.collected, lo, hi) {
      JobsTail(s.output, lo, hi);
      JobsAppend(s.collected, s.output[0], lo, hi);
    }
  }

  /** No other hand or queue holds the ticket that a worker has in hand, and it has been taken. */
  lemma HeldAlone(s: Pool, w: nat)
    requires w < |s.workers| && !s.workers[w].Waiting? && EachOnce(s.workers, s.output, s.collected, Taken(s))
    ensures s.workers[w].job.id < Taken(s)
    ensures forall v :: 0 <= v < |s.workers| && v != w && !s.workers[v].Waiting? ==>
      s.workers[v].job.id != s.workers[w].job.id
    ensures forall k :: 0 <= k < |s.output| ==> s.output[k].id != s.workers[w].job.id
    ensures forall k :: 0 <= k < |s.collected| ==> s.collected[k].id != s.workers[w].job.id
  {
    var id := s.workers[w].job.id;
    assert Overlap(id, id + 1, Taken(s)) <= 1;
    HandsAtLeast(s.workers, w, id, id + 1);
    forall v | 0 <= v < |s.workers| && v != w && !s.workers[v].Waiting? ensures s.workers[v].job.id != id {
      HandsTwo(s.workers, v, w, id, id + 1);
    }
    forall k | 0 <= k < |s.output| ensures s.output[k].id != id {
      JobsAtLeast(s.output, k, id, id + 1);
    }
    forall k | 0 <= k < |s.collected| ensures s.collected[k].id != id {
      JobsAtLeast(s.collected, k, id, id + 1);
    }
  }

  lemma PutKeepsInv(plan: Plan, s: Pool)
    requires Inv(plan, s) && Enabled(plan, s, Put)
    ensures Inv(plan, Apply(plan, s, Put))
  {
    hide Hands, Jobs, Tallied, ResultOk, WorkerOk;
    var s' := Apply(plan, s, Put);
    assert Taken(s') == Taken(s);
  }

  lemma GetKeepsInv(plan: Plan, s: Pool, w: nat)
    requires Inv(plan, s) && Enabled(plan, s, Get(w))
    ensures Inv(plan, Apply(plan, s, Get(w)))
  {
    hide Hands, Jobs, Tallied, ResultOk, EachOnce;
    var s' := Apply(plan, s, Get(w));
    assert s.input[0] == Ticket(plan, Taken(s));
    TakeTicket(s, w, s.input[0]);
  }

  lemma CheckKeepsInv(plan: Plan, s: Pool, w: nat)
    requires Inv(plan, s) && Enabled(plan, s, Check(w))
    ensures Inv(plan, Apply(plan, s, Check(w)))
  {
    hide Hands, Jobs, Tallied, EachOnce;
    MoveInHand(s, w, Checked(s.workers[w].job, s.threadExit));
  }

  lemma BeginKeepsInv(plan: Plan, s: Pool, w: nat)
    requires Inv(plan, s) && Enabled(plan, s, Begin(w))
    ensures Inv(plan, Apply(plan, s, Begin(w)))
  {
    hide Hands, Jobs, Tallied, EachOnce, ContentOk;
    BeginKeepsContent(plan, s, w);
    MoveInHand(s, w, Apply(plan, s, Begin(w)).workers[w]);
  }

  lemma BeginKeepsContent(plan: Plan, s: Pool, w: nat)
    requires Inv(plan, s) && Enabled(plan, s, Begin(w))
    ensures ContentOk(plan, Apply(plan, s, Begin(w)))
  {
    hide Hands, Jobs, Tallied, EachOnce, QueueOk, MainOk;
    HeldAlone(s, w);
  }

  lemma EndKeepsInv(plan: Plan, s: Pool, w: nat)
    requires Inv(plan, s) && Enabled(plan, s, End(w))
    ensures Inv(plan, Apply(plan, s, End(w)))
  {
    hide Hands, Jobs, Tallied, EachOnce;
    MoveInHand(s, w, Apply(plan, s, End(w)).workers[w]);
  }

  lemma ReportKeepsInv(plan: Plan, s: Pool, w: nat)
    requires Inv(plan, s) && Enabled(plan, s, Report(w))
    ensures Inv(plan, Apply(plan, s, Report(w)))
  {
    hide Hands, Jobs, Tallied, EachOnce;
    HandBack(s, w);
  }

  lemma CollectKeepsInv(plan: Plan, s: Pool)
    requires Inv(plan, s) && Enabled(plan, s, Collect)
    ensures Inv(plan, Apply(plan, s, Collect))
  {
    hide Hands, Jobs, EachOnce, WorkerOk;
    CollectOne(s);
    assert (s.collected + [s.output[0]])[..|s.collected|] == s.collected;
  }

  /** Every step of every thread keeps the invariant, and so does an interrupt at any moment. */
  lemma StepKeepsInv(plan: Plan, s: Pool, step: Step)
    requires Inv(plan, s) && Enabled(plan, s, step)
    ensures Inv(plan, Apply(plan, s, step))
  {
    match step
    case Put => PutKeepsInv(plan, s);
    case Get(w) => GetKeepsInv(plan, s, w);
    case Check(w) => CheckKeepsInv(plan, s, w);
    case Begin(w) => BeginKeepsInv(plan, s, w);
    case End(w) => EndKeepsInv(plan, s, w);
    case Report(w) => ReportKeepsInv(plan, s, w);
    case Collect => CollectKeepsInv(plan, s);
    case Join => hide Hands, Jobs, Tallied, EachOnce, ResultOk;
    case Interrupt => hide Hands, Jobs, Tallied, EachOnce;
  }
}
