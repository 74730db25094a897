/** Infinite runs of the RDMA client: progress under any fair schedule. */
module RdmaFairness {
  import opened Wrappers
  import opened RdmaFlow
  import opened RdmaProtocol
  import opened RdmaRuns
  import CC = CongestionControl

  type Run = nat -> System

  /** The step taken at each moment; none while all threads spin or sleep. */
  type Schedule = nat -> Option<Step>

  ghost predicate Moves(cfg: CC.Config, sqrt: real -> real, s: System, a: Option<Step>, s': System) {
    if a.None? then s' == s else Next(cfg, sqrt, s, a.value, s')
  }

  /** The first n steps are steps of the client or of the card. */
  ghost predicate RunsFor(cfg: CC.Config, sqrt: real -> real, run: Run, sched: Schedule, n: nat) {
    Init(run(0)) && forall k: nat :: k < n ==> Moves(cfg, sqrt, run(k), sched(k), run(k + 1))
  }

  ghost predicate RunsForever(cfg: CC.Config, sqrt: real -> real, run: Run, sched: Schedule) {
    forall n: nat :: RunsFor(cfg, sqrt, run, sched, n)
  }

  lemma {:induction false} RunKeepsInv(cfg: CC.Config, sqrt: real -> real, run: Run, sched: Schedule, n: nat)
    requires RunsFor(cfg, sqrt, run, sched, n)
    ensures Inv(cfg, run(n)) && |run(n).flows| == |run(0).flows|
  {
    hide Inv, Next, Init;
    if n == 0 {
      InitInv(cfg, run(0));
    } else {
      RunKeepsInv(cfg, sqrt, run, sched, n - 1);
      assert Moves(cfg, sqrt, run(n - 1), sched(n - 1), run(n - 1 + 1));
      if sched(n - 1).Some? {
        NextKeepsInv(cfg, sqrt, run(n - 1), sched(n - 1).value, run(n));
        NextKeepsFlows(cfg, sqrt, run(n - 1), sched(n - 1).value, run(n));
      }
    }
  }

  lemma NextKeepsFlows(cfg: CC.Config, sqrt: real -> real, s: System, step: Step, s': System)
    requires Next(cfg, sqrt, s, step, s')
    ensures |s'.flows| == |s.flows|
  {
  }

  // ---------------------------------------------------------------- the work that only falls

  /** What is left to do in a flow, wherever its sender is in its loop. */
  ghost function FlowTodo(fl: Flow): int {
    100 * (fl.iters - Posted(fl)) + 20 * (Posted(fl) - |fl.arrived|)
  }

  ghost function FlowsTodo(flows: seq<Flow>): int {
    if flows == [] then 0 else FlowsTodo(flows[..|flows| - 1]) + FlowTodo(flows[|flows| - 1])
  }

  ghost function Todo(s: System): int {
    FlowsTodo(s.flows) + 10 * |Pending(s)| + PollerRank(s.poller)
  }

  ghost function Segments(flows: seq<Flow>): nat {
    if flows == [] then 0 else Segments(flows[..|flows| - 1]) + flows[|flows| - 1].iters
  }

  /** Any step of the poller or the card, and a post of the sender; not its looking round. */
  ghost predicate Productive(s: System, a: Option<Step>) {
    a.Some? && (a.value.Sender? ==> a.value.f < |s.flows| && a.value.ch.postOk && AboutToPost(s.flows[a.value.f]))
  }

  lemma {:induction false} TodoUpdate(flows: seq<Flow>, f: nat, fl: Flow)
    requires f < |flows|
    ensures FlowsTodo(flows[f := fl]) == FlowsTodo(flows) - FlowTodo(flows[f]) + FlowTodo(fl)
  {
    var n := |flows| - 1;
    if f == n {
      assert flows[f := fl][..n] == flows[..n];
    } else {
      assert flows[f := fl][..n] == flows[..n][f := fl];
      TodoUpdate(flows[..n], f, fl);
    }
  }

  lemma {:induction false} FlowsTodoIsNat(cfg: CC.Config, flows: seq<Flow>, p: Poller)
    requires FlowsInv(cfg, flows, p)
    ensures FlowsTodo(flows) >= 0
  {
    hide FlowInv, FlowTodo;
    if flows != [] {
      var n := |flows| - 1;
      forall f | 0 <= f < n ensures FlowInv(cfg, flows[..n][f], ViewOf(p, f)) {
        assert FlowInv(cfg, flows[f], ViewOf(p, f));
      }
      FlowsTodoIsNat(cfg, flows[..n], p);
      assert FlowInv(cfg, flows[n], ViewOf(p, n));
      FlowTodoIsNat(cfg, flows[n], ViewOf(p, n));
    }
  }

  lemma FlowTodoIsNat(cfg: CC.Config, fl: Flow, view: View)
    requires FlowInv(cfg, fl, view)
    ensures FlowTodo(fl) >= 0
  {
    hide FlowInv, Posted;
    FlowBounds(cfg, fl, view);
    BelowFits(fl.arrived, Posted(fl));
  }

  lemma TodoIsNat(cfg: CC.Config, s: System)
    requires Inv(cfg, s)
    ensures Todo(s) >= 0
  {
    FlowsTodoIsNat(cfg, s.flows, s.poller);
  }

  /** Only a successful post changes how much has been posted. */
  lemma SenderPosted(cfg: CC.Config, fl: Flow, view: View, f: nat, ch: Choice)
    requires f < 256 && FlowInv(cfg, fl, view)
    ensures Posted(SenderStep(fl, f, ch)) == Posted(fl) + if AboutToPost(fl) && ch.postOk then 1 else 0
  {
    hide ControllerSound, SlotsHeld, SlotsDistinct, StampsKept, PostedInOrder, ViewSound, FreeAhead;
  }

  lemma SenderTodo(cfg: CC.Config, sqrt: real -> real, s: System, f: nat, ch: Choice, s': System)
    requires Inv(cfg, s) && Next(cfg, sqrt, s, Sender(f, ch), s')
    ensures Todo(s') == Todo(s) - if AboutToPost(s.flows[f]) && ch.postOk then 80 else 0
  {
    hide SenderStep, FlowInv, Posted, AboutToPost;
    var fl := s.flows[f];
    assert FlowInv(cfg, fl, ViewOf(s.poller, f));
    SenderPosted(cfg, fl, ViewOf(s.poller, f), f, ch);
    SenderFrame(fl, f, ch);
    TodoUpdate(s.flows, f, SenderStep(fl, f, ch));
    assert Pending(s') == Pending(s);
  }

  lemma CardTodo(cfg: CC.Config, sqrt: real -> real, s: System, f: nat, q: nat, s': System)
    requires Inv(cfg, s) && Next(cfg, sqrt, s, CardCompletes(f, q), s')
    ensures Todo(s') < Todo(s)
  {
    hide FlowInv;
    TodoUpdate(s.flows, f, Complete(s.flows[f], q));
    assert Pending(s') == Pending(s) + [Pack(f, q)];
  }

  /** A flow that the poller changes keeps what counts here. */
  lemma SameTodo(flows: seq<Flow>, f: nat, fl: Flow)
    requires f < |flows| && fl.iters == flows[f].iters && fl.arrived == flows[f].arrived
    requires fl.pc == flows[f].pc && fl.nextSeq == flows[f].nextSeq
    ensures FlowsTodo(flows[f := fl]) == FlowsTodo(flows)
  {
    TodoUpdate(flows, f, fl);
  }

  lemma PollerTodo(cfg: CC.Config, sqrt: real -> real, s: System, step: Step, s': System)
    requires Inv(cfg, s) && Next(cfg, sqrt, s, step, s') && !step.Sender? && !step.CardCompletes?
    ensures Todo(s') < Todo(s)
  {
    hide FlowInv, Tracked, FlowsTodo, Unfreed, CC.Updated, CC.Settled, CC.ValidConfig, CC.ValidState;
    match step
    case Poll(n) =>
      assert s.cq[..n] + s.cq[n..] == s.cq;
    case ReturnFailed =>
      assert Pending(s') == Pending(s);
    case ReturnDone =>
    case FreeSlot =>
      SameTodo(s.flows, CurFlow(s), s'.flows[CurFlow(s)]);
      assert Pending(s') == Pending(s)[1..];
    case ObserveBusy =>
      assert Pending(s') == Pending(s);
    case MeasureRtt(_) =>
      assert Pending(s') == Pending(s);
    case CreditBack =>
      SameTodo(s.flows, CurFlow(s), s'.flows[CurFlow(s)]);
      assert Pending(s') == Pending(s);
    case UpdateWindow(_) =>
      SameTodo(s.flows, CurFlow(s), s'.flows[CurFlow(s)]);
      assert Pending(s') == Pending(s);
    case ClampWindow(_) =>
      SameTodo(s.flows, CurFlow(s), s'.flows[CurFlow(s)]);
      assert Pending(s') == Pending(s);
  }

  /** No step adds work, and every productive one takes some away. */
  lemma StepTodo(cfg: CC.Config, sqrt: real -> real, s: System, a: Option<Step>, s': System)
    requires Inv(cfg, s) && Moves(cfg, sqrt, s, a, s')
    ensures if Productive(s, a) then Todo(s') < Todo(s) else Todo(s') == Todo(s)
  {
    hide Inv, Next, Todo, AboutToPost;
    if a.Some? {
      match a.value
      case Sender(f, ch) =>
        SenderTodo(cfg, sqrt, s, f, ch, s');
        SenderIsFlow(cfg, sqrt, s, f, ch, s');
      case CardCompletes(f, q) => CardTodo(cfg, sqrt, s, f, q, s');
      case _ => PollerTodo(cfg, sqrt, s, a.value, s');
    }
  }

  lemma SenderIsFlow(cfg: CC.Config, sqrt: real -> real, s: System, f: nat, ch: Choice, s': System)
    requires Next(cfg, sqrt, s, Sender(f, ch), s')
    ensures f < |s.flows| && f < 256 && |s.flows[f].ring| == |s.flows[f].occupant| == RING
    ensures s' == SetFlow(s, f, SenderStep(s.flows[f], f, ch))
  {
  }

  ghost function ProductiveSteps(run: Run, sched: Schedule, n: nat): nat {
    if n == 0 then 0 else ProductiveSteps(run, sched, n - 1) + if Productive(run(n - 1), sched(n - 1)) then 1 else 0
  }

  /** In any run at most a hundred productive steps for each segment, and seven, are taken. */
  lemma {:induction false} FewProductiveSteps(cfg: CC.Config, sqrt: real -> real, run: Run, sched: Schedule, n: nat)
    requires RunsFor(cfg, sqrt, run, sched, n)
    ensures Todo(run(n)) >= 0
    ensures ProductiveSteps(run, sched, n) + Todo(run(n)) <= 100 * Segments(run(0).flows) + 7
  {
    hide Inv, Next, Init, Todo, Productive;
    RunKeepsInv(cfg, sqrt, run, sched, n);
    TodoIsNat(cfg, run(n));
    if n == 0 {
      TodoAtStart(run(0));
    } else {
      FewProductiveSteps(cfg, sqrt, run, sched, n - 1);
      RunKeepsInv(cfg, sqrt, run, sched, n - 1);
      assert Moves(cfg, sqrt, run(n - 1), sched(n - 1), run(n - 1 + 1));
      StepTodo(cfg, sqrt, run(n - 1), sched(n - 1), run(n));
    }
  }

  lemma TodoAtStart(s: System)
    requires Init(s)
    ensures Todo(s) == 100 * Segments(s.flows) + 7
  {
    FlowsTodoAtStart(s.flows);
  }

  lemma {:induction false} FlowsTodoAtStart(flows: seq<Flow>)
    requires forall f :: 0 <= f < |flows| ==> InitFlow(flows[f])
    ensures FlowsTodo(flows) == 100 * Segments(flows)
  {
    if flows != [] {
      var n := |flows| - 1;
      FlowsTodoAtStart(flows[..n]);
      assert InitFlow(flows[n]);
    }
  }

  // ---------------------------------------------------------------- fairness

  /** From some moment on no post fails. */
  ghost predicate PostsSucceed(sched: Schedule, from: nat) {
    forall n: nat :: n >= from && sched(n).Some? && sched(n).value.Sender? ==> sched(n).value.ch.postOk
  }

  /** Polling never fails, and no completion reports an error. */
  ghost predicate NoFailure(sched: Schedule) {
    forall n: nat :: sched(n) != Some(ReturnFailed)
  }

  ghost predicate HasArrived(s: System, f: nat, q: nat) {
    f < |s.flows| && q in s.flows[f].arrived
  }

  ghost predicate ArrivesFrom(run: Run, n: nat, f: nat, q: nat) {
    exists m: nat :: m >= n && HasArrived(run(m), f, q)
  }

  /** The card completes every posted segment in the end. */
  ghost predicate CompletionsArrive(run: Run) {
    forall n: nat, f: nat, q: nat :: f < |run(n).flows| && q < Posted(run(n).flows[f]) ==> ArrivesFrom(run, n, f, q)
  }

  ghost predicate IsTurnOf(a: Option<Step>, f: nat) {
    a.Some? && a.value.Sender? && a.value.f == f
  }

  ghost predicate HasTurnFrom(sched: Schedule, n: nat, f: nat) {
    exists m: nat :: m >= n && IsTurnOf(sched(m), f)
  }

  /** Every sender thread runs again and again. */
  ghost predicate SendersRun(run: Run, sched: Schedule) {
    forall n: nat, f: nat :: f < |run(0).flows| ==> HasTurnFrom(sched, n, f)
  }

  ghost predicate IsPollerStep(step: Step) {
    !step.Sender? && !step.CardCompletes? && !step.ReturnFailed?
  }

  ghost predicate PollerCanMove(cfg: CC.Config, sqrt: real -> real, s: System) {
    exists step, s' :: IsPollerStep(step) && Next(cfg, sqrt, s, step, s')
  }

  ghost predicate PollerServed(cfg: CC.Config, sqrt: real -> real, s: System, a: Option<Step>) {
    (a.Some? && IsPollerStep(a.value)) || !PollerCanMove(cfg, sqrt, s)
  }

  ghost predicate PollerServedFrom(cfg: CC.Config, sqrt: real -> real, run: Run, sched: Schedule, n: nat) {
    exists m: nat :: m >= n && PollerServed(cfg, sqrt, run(m), sched(m))
  }

  /** A poller that can go on for ever goes on at some time. */
  ghost predicate PollerRuns(cfg: CC.Config, sqrt: real -> real, run: Run, sched: Schedule) {
    forall n: nat :: PollerServedFrom(cfg, sqrt, run, sched, n)
  }

  ghost predicate FairRun(cfg: CC.Config, sqrt: real -> real, run: Run, sched: Schedule, from: nat) {
    && CC.ValidConfig(cfg, sqrt)
    && RunsForever(cfg, sqrt, run, sched)
    && PostsSucceed(sched, from) && NoFailure(sched) && CompletionsArrive(run)
    && SendersRun(run, sched) && PollerRuns(cfg, sqrt, run, sched)
  }

  lemma MovesAt(cfg: CC.Config, sqrt: real -> real, run: Run, sched: Schedule, n: nat)
    requires RunsForever(cfg, sqrt, run, sched)
    ensures Moves(cfg, sqrt, run(n), sched(n), run(n + 1))
    ensures Inv(cfg, run(n)) && |run(n).flows| == |run(0).flows| <= 256
  {
    hide Init, Inv, Moves;
    assert RunsFor(cfg, sqrt, run, sched, n + 1);
    RunKeepsInv(cfg, sqrt, run, sched, n);
    FewFlows(cfg, run(n));
  }

  // ---------------------------------------------------------------- after the last productive step

  /** From n on nothing productive happens. */
  ghost predicate Settled(run: Run, sched: Schedule, n: nat) {
    forall k: nat :: k >= n ==> !Productive(run(k), sched(k))
  }

  lemma {:induction false} TodoFalls(cfg: CC.Config, sqrt: real -> real, run: Run, sched: Schedule, n: nat, k: nat)
    requires RunsForever(cfg, sqrt, run, sched) && n <= k
    ensures Todo(run(k)) <= Todo(run(n))
    decreases k - n
  {
    hide Inv, Todo, Productive, Moves, RunsForever;
    if n < k {
      TodoFalls(cfg, sqrt, run, sched, n, k - 1);
      MovesAt(cfg, sqrt, run, sched, k - 1);
      assert k - 1 + 1 == k;
      StepTodo(cfg, sqrt, run(k - 1), sched(k - 1), run(k));
    }
  }

  /** Such a moment comes. */
  lemma {:induction false} Settles(cfg: CC.Config, sqrt: real -> real, run: Run, sched: Schedule, n: nat)
    returns (m: nat)
    requires RunsForever(cfg, sqrt, run, sched)
    ensures m >= n && Settled(run, sched, m)
    decreases Todo(run(n))
  {
    hide Inv, Todo, Productive, Moves, RunsForever;
    if k: nat :| k >= n && Productive(run(k), sched(k)) {
      MovesAt(cfg, sqrt, run, sched, n);
      TodoIsNat(cfg, run(n));
      MovesAt(cfg, sqrt, run, sched, k);
      StepTodo(cfg, sqrt, run(k), sched(k), run(k + 1));
      TodoFalls(cfg, sqrt, run, sched, n, k);
      m := Settles(cfg, sqrt, run, sched, k + 1);
    } else {
      m := n;
    }
  }

  /** What a sender's looking round leaves as it is. */
  ghost predicate SameFlow(fl: Flow, fl': Flow) {
    && Posted(fl') == Posted(fl) && fl'.iters == fl.iters
    && fl'.arrived == fl.arrived && fl'.freed == fl.freed && fl'.credited == fl.credited
  }

  ghost predicate SameBackground(s: System, s': System) {
    && s'.poller == s.poller && s'.cq == s.cq && s'.countdown == s.countdown && |s'.flows| == |s.flows|
    && forall f :: 0 <= f < |s.flows| ==> SameFlow(s.flows[f], s'.flows[f])
  }

  lemma IdleStep(cfg: CC.Config, sqrt: real -> real, s: System, a: Option<Step>, s': System)
    requires Inv(cfg, s) && Moves(cfg, sqrt, s, a, s') && !Productive(s, a)
    ensures a.Some? ==> a.value.Sender?
    ensures forall f: nat :: f < |s.flows| && !IsTurnOf(a, f) ==> s'.flows[f] == s.flows[f]
    ensures SameBackground(s, s')
  {
    hide FlowInv, SenderStep, Posted, AboutToPost, Tracked;
    if a.Some? {
      var f, ch := a.value.f, a.value.ch;
      var fl := s.flows[f];
      assert FlowInv(cfg, fl, ViewOf(s.poller, f));
      SenderPosted(cfg, fl, ViewOf(s.poller, f), f, ch);
      SenderFrame(fl, f, ch);
    }
  }

  /** After that moment only the senders look round. */
  lemma {:induction false} StaysSame(cfg: CC.Config, sqrt: real -> real, run: Run, sched: Schedule, m: nat, k: nat)
    requires RunsForever(cfg, sqrt, run, sched) && Settled(run, sched, m) && m <= k
    ensures SameBackground(run(m), run(k))
    decreases k - m
  {
    hide Inv, Productive, Moves, RunsForever, SameFlow;
    if m < k {
      StaysSame(cfg, sqrt, run, sched, m, k - 1);
      MovesAt(cfg, sqrt, run, sched, k - 1);
      assert k - 1 + 1 == k;
      IdleStep(cfg, sqrt, run(k - 1), sched(k - 1), run(k));
      SameIsTransitive(run(m), run(k - 1), run(k));
    } else {
      SameIsReflexive(run(m));
    }
  }

  lemma SameIsReflexive(s: System)
    ensures SameBackground(s, s)
  {
  }

  lemma SameIsTransitive(s: System, t: System, u: System)
    requires SameBackground(s, t) && SameBackground(t, u)
    ensures SameBackground(s, u)
  {
    hide Posted;
    forall f | 0 <= f < |s.flows| ensures SameFlow(s.flows[f], u.flows[f]) {
      assert SameFlow(s.flows[f], t.flows[f]) && SameFlow(t.flows[f], u.flows[f]);
    }
  }

  /** The next turn of a sender finds its flow as it was. */
  lemma NextTurn(cfg: CC.Config, sqrt: real -> real, run: Run, sched: Schedule, n: nat, f: nat) returns (j: nat)
    requires RunsForever(cfg, sqrt, run, sched) && Settled(run, sched, n) && SendersRun(run, sched)
    requires f < |run(n).flows|
    ensures j >= n && IsTurnOf(sched(j), f)
    ensures f < |run(j).flows| && run(j).flows[f] == run(n).flows[f]
  {
    hide Inv, Productive, Moves, RunsForever;
    MovesAt(cfg, sqrt, run, sched, n);
    assert HasTurnFrom(sched, n, f);
    ghost var m: nat :| m >= n && IsTurnOf(sched(m), f);
    j := n;
    while !IsTurnOf(sched(j), f)
      invariant n <= j <= m && f < |run(j).flows| && run(j).flows[f] == run(n).flows[f]
      decreases m - j
    {
      MovesAt(cfg, sqrt, run, sched, j);
      MovesAt(cfg, sqrt, run, sched, j + 1);
      IdleStep(cfg, sqrt, run(j), sched(j), run(j + 1));
      j := j + 1;
    }
  }

  /** What the turn does. */
  lemma TurnStep(cfg: CC.Config, sqrt: real -> real, run: Run, sched: Schedule, j: nat, f: nat)
    requires RunsForever(cfg, sqrt, run, sched) && IsTurnOf(sched(j), f)
    ensures Inv(cfg, run(j)) && Inv(cfg, run(j + 1))
    ensures f < |run(j).flows| && f < 256 && |run(j).flows[f].ring| == |run(j).flows[f].occupant| == RING
    ensures run(j + 1) == SetFlow(run(j), f, SenderStep(run(j).flows[f], f, sched(j).value.ch))
  {
    hide Inv, RunsForever, SenderStep;
    MovesAt(cfg, sqrt, run, sched, j);
    MovesAt(cfg, sqrt, run, sched, j + 1);
    SenderIsFlow(cfg, sqrt, run(j), f, sched(j).value.ch, run(j + 1));
  }

  /** A poller that could go on at every moment from n on contradicts fairness, so there is one at which it cannot. */
  lemma PollerRests(cfg: CC.Config, sqrt: real -> real, run: Run, sched: Schedule, n: nat) returns (k: nat)
    requires Settled(run, sched, n) && PollerRuns(cfg, sqrt, run, sched)
    ensures k >= n && !PollerCanMove(cfg, sqrt, run(k))
  {
    hide PollerCanMove, AboutToPost;
    assert PollerServedFrom(cfg, sqrt, run, sched, n);
    k :| k >= n && PollerServed(cfg, sqrt, run(k), sched(k));
    assert !Productive(run(k), sched(k));
  }

  /** All that has been posted has been completed. */
  lemma AllArrived(cfg: CC.Config, sqrt: real -> real, run: Run, sched: Schedule, n: nat, f: nat)
    requires RunsForever(cfg, sqrt, run, sched) && Settled(run, sched, n) && CompletionsArrive(run)
    requires f < |run(n).flows|
    ensures var fl := run(n).flows[f]; forall q: nat :: q < Posted(fl) ==> q in fl.arrived
  {
    hide RunsForever, Posted, Productive;
    var fl := run(n).flows[f];
    forall q: nat | q < Posted(fl) ensures q in fl.arrived {
      assert ArrivesFrom(run, n, f, q);
      var m: nat :| m >= n && HasArrived(run(m), f, q);
      StaysSame(cfg, sqrt, run, sched, n, m);
      assert SameFlow(run(n).flows[f], run(m).flows[f]);
    }
  }

  // ---------------------------------------------------------------- the poller in a batch

  ghost predicate AtSlot(s: System, f: nat, q: nat, stage: Stage) {
    InBatch(s) && CurFlow(s) == f && CurSeq(s) == q && s.poller.stage == stage
  }

  ghost predicate SlotFree(s: System, f: nat, q: nat) {
    f < |s.flows| && |s.flows[f].ring| == RING && s.flows[f].ring[Ix(q)].free
  }

  /** Apart from waiting for a busy slot, a poller inside a batch can always go on. */
  lemma BatchCanMove(cfg: CC.Config, sqrt: real -> real, s: System)
    requires CC.ValidConfig(cfg, sqrt) && Inv(cfg, s) && InBatch(s)
    requires s.poller.stage == Waiting ==> !s.flows[CurFlow(s)].ring[Ix(CurSeq(s))].free
    ensures PollerCanMove(cfg, sqrt, s)
  {
    hide FlowInv, Tracked, CC.ValidConfig, CC.Updated, CC.Settled, CC.ValidState, Inv;
    HeadView(cfg, s);
    var f, q, fl := CurFlow(s), CurSeq(s), s.flows[CurFlow(s)];
    match s.poller.stage
    case Waiting =>
      assert Next(cfg, sqrt, s, ObserveBusy, SetStage(s, ToCredit));
    case ToCredit =>
      assert Next(cfg, sqrt, s, CreditBack, SetStage(SetFlow(s, f, Credit(fl, q)), ToRtt));
    case ToRtt =>
      assert Next(cfg, sqrt, s, MeasureRtt(0), SetStage(s, ToUpdate(Rtt(0, fl.ring[Ix(q)].stamp))));
    case ToUpdate(rtt) =>
      ValidWhenUpdating(cfg, fl, q, rtt);
      assert Next(cfg, sqrt, s, UpdateWindow(0), SetStage(SetFlow(s, f, WithUpdate(cfg, sqrt, fl, rtt, 0)), ToClamp));
    case ToClamp =>
      assert Next(cfg, sqrt, s, ClampWindow(0), SetStage(SetFlow(s, f, fl.(cc := CC.Settled(fl.cc, 0))), ToFree));
    case ToFree =>
      var s' := SetFlow(s, f, Free(fl, q)).(
        poller := AfterFree(s.poller),
        countdown := s.countdown - if AfterFree(s.poller) == Idle then |s.poller.wc| else 0);
      assert Next(cfg, sqrt, s, FreeSlot, s');
  }

  ghost function MidPost(pc: Pc): nat {
    match pc
    case Posting(_, _, ToStamp, _) => 3
    case Posting(_, _, ToCount, _) => 2
    case Posting(_, _, ToMark, _) => 1
    case _ => 0
  }

  /** While the slot of a completed segment is free, its sender is in the middle of posting it. */
  lemma FreeMeansMidPost(cfg: CC.Config, s: System, f: nat, q: nat)
    requires Inv(cfg, s) && AtSlot(s, f, q, Waiting) && SlotFree(s, f, q)
    ensures MidPost(s.flows[f].pc) > 0
  {
    hide FlowInv, Inv;
    HeadView(cfg, s);
    WaitsForSender(cfg, s.flows[f], q);
  }

  lemma MidPostFalls(fl: Flow, f: nat, ch: Choice)
    requires f < 256 && |fl.ring| == |fl.occupant| == RING && MidPost(fl.pc) > 0
    ensures MidPost(SenderStep(fl, f, ch).pc) < MidPost(fl.pc)
  {
  }

  lemma BackgroundAtSlot(s: System, s': System, f: nat, q: nat)
    requires SameBackground(s, s') && AtSlot(s, f, q, Waiting)
    requires forall g :: 0 <= g < |s'.flows| ==> |s'.flows[g].ring| == RING
    ensures AtSlot(s', f, q, Waiting)
  {
  }

  lemma RingsHaveSize(cfg: CC.Config, s: System)
    requires Inv(cfg, s)
    ensures forall g :: 0 <= g < |s.flows| ==> |s.flows[g].ring| == |s.flows[g].occupant| == RING
  {
    hide FlowInv;
    forall g | 0 <= g < |s.flows| ensures |s.flows[g].ring| == |s.flows[g].occupant| == RING {
      assert FlowInv(cfg, s.flows[g], ViewOf(s.poller, g));
      RingSizes(cfg, s.flows[g], ViewOf(s.poller, g));
    }
  }

  lemma StaysAtSlot(cfg: CC.Config, sqrt: real -> real, run: Run, sched: Schedule, n: nat, k: nat, f: nat, q: nat)
    requires RunsForever(cfg, sqrt, run, sched) && Settled(run, sched, n) && n <= k && AtSlot(run(n), f, q, Waiting)
    ensures AtSlot(run(k), f, q, Waiting)
  {
    hide RunsForever, Settled, AtSlot, Inv, SameBackground;
    StaysSame(cfg, sqrt, run, sched, n, k);
    MovesAt(cfg, sqrt, run, sched, k);
    RingsHaveSize(cfg, run(k));
    BackgroundAtSlot(run(n), run(k), f, q);
  }

  /** So the slot gets busy ... */
  lemma {:induction false} SlotGetsBusy(cfg: CC.Config, sqrt: real -> real, run: Run, sched: Schedule, n: nat, f: nat,
                                        q: nat)
    returns (k: nat)
    requires RunsForever(cfg, sqrt, run, sched) && Settled(run, sched, n) && SendersRun(run, sched)
    requires AtSlot(run(n), f, q, Waiting)
    ensures k >= n && !SlotFree(run(k), f, q)
    decreases if f < |run(n).flows| then MidPost(run(n).flows[f].pc) else 0
  {
    hide RunsForever, Inv, SenderStep, SendersRun, MidPost, SlotFree, Productive;
    assert f < |run(n).flows|;
    if !SlotFree(run(n), f, q) {
      k := n;
    } else {
      var j := NextTurn(cfg, sqrt, run, sched, n, f);
      TurnStep(cfg, sqrt, run, sched, j, f);
      StaysAtSlot(cfg, sqrt, run, sched, n, j, f, q);
      StaysAtSlot(cfg, sqrt, run, sched, n, j + 1, f, q);
      MovesAt(cfg, sqrt, run, sched, n);
      FreeMeansMidPost(cfg, run(n), f, q);
      MidPostFalls(run(j).flows[f], f, sched(j).value.ch);
      k := SlotGetsBusy(cfg, sqrt, run, sched, j + 1, f, q);
    }
  }

  /** ... and stays so until the poller frees it. */
  lemma SenderKeepsBusy(fl: Flow, f: nat, ch: Choice, b: nat)
    requires f < 256 && |fl.ring| == |fl.occupant| == RING && b < RING && !fl.ring[b].free
    ensures |SenderStep(fl, f, ch).ring| == RING && !SenderStep(fl, f, ch).ring[b].free
  {
  }

  lemma {:induction false} SlotStaysBusy(cfg: CC.Config, sqrt: real -> real, run: Run, sched: Schedule, n: nat, k: nat,
                                         f: nat, q: nat)
    requires RunsForever(cfg, sqrt, run, sched) && Settled(run, sched, n) && n <= k
    requires f < |run(n).flows| && !SlotFree(run(n), f, q)
    ensures f < |run(k).flows| && !SlotFree(run(k), f, q)
    decreases k - n
  {
    hide RunsForever, Inv, SenderStep, Productive;
    if n < k {
      SlotStaysBusy(cfg, sqrt, run, sched, n, k - 1, f, q);
      MovesAt(cfg, sqrt, run, sched, k - 1);
      MovesAt(cfg, sqrt, run, sched, k);
      RingsHaveSize(cfg, run(k - 1));
      assert k - 1 + 1 == k;
      IdleStep(cfg, sqrt, run(k - 1), sched(k - 1), run(k));
      if IsTurnOf(sched(k - 1), f) {
        TurnStep(cfg, sqrt, run, sched, k - 1, f);
        SenderKeepsBusy(run(k - 1).flows[f], f, sched(k - 1).value.ch, Ix(q));
      }
    }
  }

  /** Once things have settled the poller is not in a batch. */
  lemma NotInBatch(cfg: CC.Config, sqrt: real -> real, run: Run, sched: Schedule, from: nat, n: nat)
    requires FairRun(cfg, sqrt, run, sched, from) && Settled(run, sched, n)
    ensures !run(n).poller.Busy?
  {
    hide RunsForever, Inv, CC.ValidConfig, Productive, SendersRun, PollerCanMove, PollerRuns, CompletionsArrive;
    if run(n).poller.Busy? {
      MovesAt(cfg, sqrt, run, sched, n);
      HeadView(cfg, run(n));
      var f, q := CurFlow(run(n)), CurSeq(run(n));
      var j := n;
      if run(n).poller.stage == Waiting {
        j := SlotGetsBusy(cfg, sqrt, run, sched, n, f, q);
        StaysAtSlot(cfg, sqrt, run, sched, n, j, f, q);
      }
      var k := PollerRests(cfg, sqrt, run, sched, j);
      StaysSame(cfg, sqrt, run, sched, n, k);
      if run(n).poller.stage == Waiting {
        SlotStaysBusy(cfg, sqrt, run, sched, j, k, f, q);
      }
      MovesAt(cfg, sqrt, run, sched, k);
      HeadView(cfg, run(k));
      BatchCanMove(cfg, sqrt, run(k));
    }
  }

  // ---------------------------------------------------------------- the poller between batches

  lemma IdleCanMove(cfg: CC.Config, sqrt: real -> real, s: System)
    requires s.poller == Idle && (s.countdown == 0 || s.cq != [])
    ensures PollerCanMove(cfg, sqrt, s)
  {
    if s.countdown == 0 {
      assert Next(cfg, sqrt, s, ReturnDone, s.(poller := Finished));
    } else {
      assert Next(cfg, sqrt, s, Poll(1), s.(cq := s.cq[1..], poller := Busy(s.cq[..1], 0, Waiting)));
    }
  }

  /** A settled poller has nothing pending. */
  lemma NothingPendingNow(cfg: CC.Config, sqrt: real -> real, s: System)
    requires Inv(cfg, s) && !s.poller.Busy? && !s.poller.Failed? && !PollerCanMove(cfg, sqrt, s)
    ensures Pending(s) == [] && (s.poller == Idle ==> s.countdown != 0)
  {
    hide Inv, PollerCanMove;
    if s.poller == Idle && (s.countdown == 0 || s.cq != []) {
      IdleCanMove(cfg, sqrt, s);
    }
    QueueIsEmpty(cfg, s);
  }

  lemma {:induction false} FullSize(s: set<nat>, n: nat)
    requires Below(s, n) && forall q: nat :: q < n ==> q in s
    ensures |s| == n
  {
    if n == 0 {
      assert s == {};
    } else {
      FullSize(s - {n - 1}, n - 1);
    }
  }

  /** Then every flow is quiet. */
  lemma QuietNow(cfg: CC.Config, sqrt: real -> real, run: Run, sched: Schedule, n: nat, f: nat)
    requires RunsForever(cfg, sqrt, run, sched) && Settled(run, sched, n) && CompletionsArrive(run)
    requires f < |run(n).flows| && Pending(run(n)) == [] && !run(n).poller.Busy?
    ensures FlowInv(cfg, run(n).flows[f], Elsewhere) && Quiet(run(n).flows[f])
  {
    hide RunsForever, Inv, Productive, CompletionsArrive, FlowInv, Posted;
    MovesAt(cfg, sqrt, run, sched, n);
    NothingPending(cfg, run(n), f);
    AllArrived(cfg, sqrt, run, sched, n, f);
    var fl := run(n).flows[f];
    FlowBounds(cfg, fl, Elsewhere);
    FullSize(fl.arrived, Posted(fl));
  }

  /** A quiet sender that is not to post again comes to its end. */
  lemma {:induction false} SenderEnds(cfg: CC.Config, sqrt: real -> real, run: Run, sched: Schedule, n: nat, f: nat)
    returns (k: nat)
    requires RunsForever(cfg, sqrt, run, sched) && Settled(run, sched, n) && SendersRun(run, sched)
    requires PostsSucceed(sched, n) && CompletionsArrive(run)
    requires f < |run(n).flows| && Pending(run(n)) == [] && !run(n).poller.Busy?
    ensures k >= n && f < |run(k).flows| && run(k).flows[f].pc == Done
    decreases if f < |run(n).flows| then SenderRank(run(n).flows[f].pc) else 0
  {
    hide RunsForever, Inv, SenderStep, SendersRun, SenderRank, CompletionsArrive, FlowInv, Quiet, Posted;
    if run(n).flows[f].pc == Done {
      k := n;
    } else {
      var j := NextTurn(cfg, sqrt, run, sched, n, f);
      TurnStep(cfg, sqrt, run, sched, j, f);
      QuietNow(cfg, sqrt, run, sched, n, f);
      QuietSenderAdvances(cfg, run(j).flows[f], f, sched(j).value.ch);
      assert !Productive(run(j), sched(j));
      StaysSame(cfg, sqrt, run, sched, n, j + 1);
      k := SenderEnds(cfg, sqrt, run, sched, j + 1, f);
    }
  }

  lemma {:induction false} StaysEnded(cfg: CC.Config, sqrt: real -> real, run: Run, sched: Schedule, n: nat, k: nat,
                                      f: nat)
    requires RunsForever(cfg, sqrt, run, sched) && Settled(run, sched, n) && n <= k
    requires f < |run(n).flows| && run(n).flows[f].pc == Done
    ensures f < |run(k).flows| && run(k).flows[f].pc == Done
    decreases k - n
  {
    hide RunsForever, Inv, Productive;
    if n < k {
      StaysEnded(cfg, sqrt, run, sched, n, k - 1, f);
      MovesAt(cfg, sqrt, run, sched, k - 1);
      MovesAt(cfg, sqrt, run, sched, k);
      assert k - 1 + 1 == k;
      IdleStep(cfg, sqrt, run(k - 1), sched(k - 1), run(k));
      if IsTurnOf(sched(k - 1), f) {
        TurnStep(cfg, sqrt, run, sched, k - 1, f);
      }
    }
  }

  ghost predicate EndedBelow(s: System, c: nat) {
    forall f :: 0 <= f < c && f < |s.flows| ==> s.flows[f].pc == Done
  }

  /** All senders come to their ends. */
  lemma {:induction false} SendersEnd(cfg: CC.Config, sqrt: real -> real, run: Run, sched: Schedule, n: nat, c: nat)
    returns (k: nat)
    requires RunsForever(cfg, sqrt, run, sched) && Settled(run, sched, n) && SendersRun(run, sched)
    requires PostsSucceed(sched, n) && CompletionsArrive(run)
    requires c <= |run(n).flows| && Pending(run(n)) == [] && !run(n).poller.Busy?
    ensures k >= n && EndedBelow(run(k), c)
  {
    hide RunsForever, Inv, SendersRun, CompletionsArrive, Productive, SameFlow;
    if c == 0 {
      k := n;
    } else {
      var j := SendersEnd(cfg, sqrt, run, sched, n, c - 1);
      StaysSame(cfg, sqrt, run, sched, n, j);
      k := SenderEnds(cfg, sqrt, run, sched, j, c - 1);
      StaysSame(cfg, sqrt, run, sched, j, k);
      forall f | 0 <= f < c && f < |run(k).flows| ensures run(k).flows[f].pc == Done {
        if f < c - 1 {
          StaysEnded(cfg, sqrt, run, sched, j, k, f);
        }
      }
    }
  }

  lemma NeverFailed(cfg: CC.Config, sqrt: real -> real, run: Run, sched: Schedule, n: nat)
    requires RunsForever(cfg, sqrt, run, sched) && NoFailure(sched)
    ensures !run(n).poller.Failed?
  {
    hide RunsForever, Inv, SenderStep, Next;
    if n == 0 {
      assert RunsFor(cfg, sqrt, run, sched, 0) by {
        ForeverIsFor(cfg, sqrt, run, sched);
      }
    } else {
      NeverFailed(cfg, sqrt, run, sched, n - 1);
      MovesAt(cfg, sqrt, run, sched, n - 1);
      assert n - 1 + 1 == n;
      if sched(n - 1).Some? {
        OnlyFailureFails(cfg, sqrt, run(n - 1), sched(n - 1).value, run(n));
      }
    }
  }

  lemma OnlyFailureFails(cfg: CC.Config, sqrt: real -> real, s: System, step: Step, s': System)
    requires Next(cfg, sqrt, s, step, s') && !s.poller.Failed? && step != ReturnFailed
    ensures !s'.poller.Failed?
  {
    hide SenderStep, CC.ValidConfig, CC.ValidState;
  }

  lemma ForeverIsFor(cfg: CC.Config, sqrt: real -> real, run: Run, sched: Schedule)
    requires RunsForever(cfg, sqrt, run, sched)
    ensures RunsFor(cfg, sqrt, run, sched, 0)
  {
  }

  /** Every flow is quiet and every sender has returned: everything has been posted, so it is delivered. */
  lemma EndedIsDelivered(cfg: CC.Config, s: System)
    requires Inv(cfg, s) && EndedBelow(s, |s.flows|) && (s.poller == Idle || s.poller == Finished)
    requires forall f :: 0 <= f < |s.flows| ==> Quiet(s.flows[f])
    ensures s.poller == Idle ==> s.countdown == 0
    ensures s.poller == Finished ==> AllDone(s)
  {
    hide Inv, Posted;
    EverythingDelivered(cfg, s);
  }

  lemma AllDoneStays(cfg: CC.Config, sqrt: real -> real, run: Run, sched: Schedule, n: nat, k: nat)
    requires RunsForever(cfg, sqrt, run, sched) && Settled(run, sched, n) && n <= k && AllDone(run(n))
    ensures AllDone(run(k)) && run(k).countdown == 0
  {
    hide RunsForever, Inv, Productive;
    StaysSame(cfg, sqrt, run, sched, n, k);
    MovesAt(cfg, sqrt, run, sched, k);
    FinishedIsZero(cfg, run(k));
    forall f | 0 <= f < |run(k).flows| ensures run(k).flows[f].pc == Done && FullyDelivered(run(k).flows[f]) {
      StaysEnded(cfg, sqrt, run, sched, n, k, f);
    }
  }

  lemma FinishedIsZero(cfg: CC.Config, s: System)
    requires Inv(cfg, s) && s.poller == Finished
    ensures s.countdown == 0
    ensures forall f :: 0 <= f < |s.flows| ==> FullyDelivered(s.flows[f])
  {
    hide FlowInv;
    InvIsSafe(cfg, s);
  }

  /**
   * The progress theorem. If in the end posts succeed, polling does not fail, the card completes what is
   * posted, every sender runs again and again, and a poller that can go on is not left waiting for ever,
   * then every run comes to where all threads have returned, everything is delivered and the countdown is
   * zero, and stays there.
   */
  lemma FairRunsFinish(cfg: CC.Config, sqrt: real -> real, run: Run, sched: Schedule, from: nat) returns (n: nat)
    requires FairRun(cfg, sqrt, run, sched, from)
    ensures forall k: nat :: k >= n ==> AllDone(run(k)) && run(k).countdown == 0
  {
    hide RunsForever, Inv, Productive, SendersRun, CompletionsArrive, PollerRuns, PollerCanMove, CC.ValidConfig,
         AllDone;
    hide FullyDelivered, Quiet, Pending;
    var m := Settles(cfg, sqrt, run, sched, from);
    var j := PollerRests(cfg, sqrt, run, sched, m);
    NotInBatch(cfg, sqrt, run, sched, from, j);
    NeverFailed(cfg, sqrt, run, sched, j);
    MovesAt(cfg, sqrt, run, sched, j);
    NothingPendingNow(cfg, sqrt, run(j));
    n := SendersEnd(cfg, sqrt, run, sched, j, |run(j).flows|);
    StaysSame(cfg, sqrt, run, sched, j, n);
    MovesAt(cfg, sqrt, run, sched, n);
    SamePending(run(j), run(n));
    forall f | 0 <= f < |run(n).flows| ensures Quiet(run(n).flows[f]) {
      QuietNow(cfg, sqrt, run, sched, n, f);
    }
    EndedIsDelivered(cfg, run(n));
    forall k: nat | k >= n ensures AllDone(run(k)) && run(k).countdown == 0 {
      AllDoneStays(cfg, sqrt, run, sched, n, k);
    }
  }

  lemma SamePending(s: System, s': System)
    requires SameBackground(s, s')
    ensures Pending(s') == Pending(s)
  {
  }

  // ---------------------------------------------------------------- fair runs exist

  ghost function StepBetween(cfg: CC.Config, sqrt: real -> real, s: System, s': System): (step: Step)
    requires Steps(cfg, sqrt, s, s')
    ensures Next(cfg, sqrt, s, step, s')
  {
    var step :| Next(cfg, sqrt, s, step, s');
    step
  }

  /** A run along a path and then in its last state for ever, the senders taking turns. */
  ghost function RunAlong(path: seq<System>): Run
    requires path != []
  {
    (n: nat) => if n < |path| then path[n] else path[|path| - 1]
  }

  ghost function Turn(flows: nat, n: nat): (f: nat)
    ensures flows > 0 ==> f < flows
  {
    if n > 0 && Turn(flows, n - 1) + 1 < flows then Turn(flows, n - 1) + 1 else 0
  }

  ghost function ScheduleAlong(cfg: CC.Config, sqrt: real -> real, path: seq<System>): Schedule
    requires path != [] && Continues(cfg, sqrt, path[0], path)
  {
    (n: nat) => if n < |path| - 1 then Some(StepBetween(cfg, sqrt, path[n], path[n + 1]))
         else if path[0].flows == [] then None
         else Some(Sender(Turn(|path[0].flows|, n), Choice(true, 0)))
  }

  lemma {:induction false} PathKeeps(cfg: CC.Config, sqrt: real -> real, path: seq<System>, k: nat)
    requires path != [] && Init(path[0]) && Continues(cfg, sqrt, path[0], path) && k < |path|
    ensures Inv(cfg, path[k]) && |path[k].flows| == |path[0].flows|
    ensures forall f: nat :: f < |path[0].flows| ==> path[k].flows[f].iters == path[0].flows[f].iters
  {
    hide Inv, Next, Init;
    if k == 0 {
      InitInv(cfg, path[0]);
    } else {
      PathKeeps(cfg, sqrt, path, k - 1);
      assert Steps(cfg, sqrt, path[k - 1], path[k - 1 + 1]);
      StepsKeepInv(cfg, sqrt, path[k - 1], path[k]);
      var step := StepBetween(cfg, sqrt, path[k - 1], path[k]);
      NextKeepsFlows(cfg, sqrt, path[k - 1], step, path[k]);
      NextKeepsIters(cfg, sqrt, path[k - 1], step, path[k]);
    }
  }

  lemma NextKeepsIters(cfg: CC.Config, sqrt: real -> real, s: System, step: Step, s': System)
    requires Next(cfg, sqrt, s, step, s')
    ensures |s'.flows| == |s.flows| && forall f :: 0 <= f < |s.flows| ==> s'.flows[f].iters == s.flows[f].iters
  {
    hide SenderStep, CC.Updated, CC.Settled, CC.ValidConfig, CC.ValidState;
    if step.Sender? {
      SenderFrame(s.flows[step.f], step.f, step.ch);
    }
  }

  /** A poller that has returned an error stays so. */
  lemma FailedStays(cfg: CC.Config, sqrt: real -> real, path: seq<System>, k: nat)
    requires path != [] && Continues(cfg, sqrt, path[0], path) && k < |path| && path[k].poller.Failed?
    ensures path[|path| - 1].poller.Failed?
    decreases |path| - k
  {
    hide SenderStep;
    if k < |path| - 1 {
      assert Steps(cfg, sqrt, path[k], path[k + 1]);
      FailedStays(cfg, sqrt, path, k + 1);
    }
  }

  lemma DoneIsStill(fl: Flow, f: nat)
    requires fl.pc == Done && f < 256 && |fl.ring| == |fl.occupant| == RING
    ensures SenderStep(fl, f, Choice(true, 0)) == fl
  {
  }

  lemma AlongMoves(cfg: CC.Config, sqrt: real -> real, path: seq<System>, n: nat)
    requires path != [] && Init(path[0]) && Continues(cfg, sqrt, path[0], path) && AllDone(path[|path| - 1])
    ensures var run, sched := RunAlong(path), ScheduleAlong(cfg, sqrt, path);
            Moves(cfg, sqrt, run(n), sched(n), run(n + 1))
  {
    hide SenderStep, Inv, Init, FullyDelivered;
    var last := |path| - 1;
    if n < last {
      assert Steps(cfg, sqrt, path[n], path[n + 1]);
    } else if path[0].flows != [] {
      hide Continues;
      PathKeeps(cfg, sqrt, path, last);
      var s, f := path[last], Turn(|path[0].flows|, n);
      RingsHaveSize(cfg, s);
      FewFlows(cfg, s);
      DoneIsStill(s.flows[f], f);
      assert SetFlow(s, f, s.flows[f]) == s;
    }
  }

  /** Every number below the bound comes round again. */
  lemma {:induction false} TurnComes(flows: nat, n: nat, f: nat) returns (m: nat)
    requires f < flows
    ensures m >= n && Turn(flows, m) == f
    decreases if Turn(flows, n) <= f then f - Turn(flows, n) else flows - Turn(flows, n) + f
  {
    if Turn(flows, n) == f {
      m := n;
    } else {
      assert Turn(flows, n + 1) == if Turn(flows, n) + 1 < flows then Turn(flows, n) + 1 else 0;
      m := TurnComes(flows, n + 1, f);
    }
  }

  /** The hypotheses of the progress theorem can be met, from every initial state. */
  lemma FairRunExists(cfg: CC.Config, sqrt: real -> real, s: System) returns (run: Run, sched: Schedule, from: nat)
    requires CC.ValidConfig(cfg, sqrt) && Init(s)
    ensures FairRun(cfg, sqrt, run, sched, from) && run(0) == s
  {
    hide Inv, Init, CC.ValidConfig, AllDone, Next, Continues, StepBetween;
    InitInv(cfg, s);
    InitIsIdle(s);
    var path := CanFinish(cfg, sqrt, s);
    PathStarts(cfg, sqrt, s, path);
    run, sched, from := RunAlong(path), ScheduleAlong(cfg, sqrt, path), |path|;
    forall n: nat ensures RunsFor(cfg, sqrt, run, sched, n) {
      forall k: nat | k < n ensures Moves(cfg, sqrt, run(k), sched(k), run(k + 1)) {
        AlongMoves(cfg, sqrt, path, k);
      }
    }
    AlongIsFair(cfg, sqrt, path);
  }

  lemma PathStarts(cfg: CC.Config, sqrt: real -> real, s: System, path: seq<System>)
    requires Continues(cfg, sqrt, s, path)
    ensures path != [] && path[0] == s
  {
  }

  lemma InitIsIdle(s: System)
    requires Init(s)
    ensures s.poller == Idle
  {
  }

  lemma AlongIsFair(cfg: CC.Config, sqrt: real -> real, path: seq<System>)
    requires path != [] && Init(path[0]) && Continues(cfg, sqrt, path[0], path) && AllDone(path[|path| - 1])
    ensures var run, sched := RunAlong(path), ScheduleAlong(cfg, sqrt, path);
            && PostsSucceed(sched, |path|) && NoFailure(sched) && CompletionsArrive(run)
            && SendersRun(run, sched) && PollerRuns(cfg, sqrt, run, sched)
  {
    hide Inv, Init, Next, Continues, StepBetween, PollerCanMove;
    var run, sched := RunAlong(path), ScheduleAlong(cfg, sqrt, path);
    var last, flows := |path| - 1, |path[0].flows|;
    forall n: nat ensures sched(n) != Some(ReturnFailed) {
      AlongNeverFails(cfg, sqrt, path, n);
    }
    forall n: nat, f: nat, q: nat | f < |run(n).flows| && q < Posted(run(n).flows[f])
      ensures ArrivesFrom(run, n, f, q)
    {
      AlongArrives(cfg, sqrt, path, n, f, q);
    }
    forall n: nat, f: nat | f < |run(0).flows| ensures HasTurnFrom(sched, n, f) {
      var m := TurnComes(flows, n + last, f);
      assert IsTurnOf(sched(m), f);
    }
    forall n: nat ensures PollerServedFrom(cfg, sqrt, run, sched, n) {
      FinishedRests(cfg, sqrt, path[last]);
      assert PollerServed(cfg, sqrt, run(n + last), sched(n + last));
    }
  }

  lemma AlongNeverFails(cfg: CC.Config, sqrt: real -> real, path: seq<System>, n: nat)
    requires path != [] && Continues(cfg, sqrt, path[0], path) && AllDone(path[|path| - 1])
    ensures ScheduleAlong(cfg, sqrt, path)(n) != Some(ReturnFailed)
  {
    if n < |path| - 1 && ScheduleAlong(cfg, sqrt, path)(n) == Some(ReturnFailed) {
      assert Next(cfg, sqrt, path[n], ReturnFailed, path[n + 1]);
      FailedStays(cfg, sqrt, path, n + 1);
    }
  }

  lemma AlongArrives(cfg: CC.Config, sqrt: real -> real, path: seq<System>, n: nat, f: nat, q: nat)
    requires path != [] && Init(path[0]) && Continues(cfg, sqrt, path[0], path) && AllDone(path[|path| - 1])
    requires f < |RunAlong(path)(n).flows| && q < Posted(RunAlong(path)(n).flows[f])
    ensures ArrivesFrom(RunAlong(path), n, f, q)
  {
    hide Inv, Init, Continues, Posted;
    var run, last := RunAlong(path), |path| - 1;
    var k := if n < last then n else last;
    PathKeeps(cfg, sqrt, path, k);
    PathKeeps(cfg, sqrt, path, last);
    PostedWithin(cfg, path[k], f);
    assert HasArrived(run(n + last), f, q);
  }

  lemma PostedWithin(cfg: CC.Config, s: System, f: nat)
    requires Inv(cfg, s) && f < |s.flows|
    ensures Posted(s.flows[f]) <= s.flows[f].iters
  {
    hide FlowInv, Posted;
    assert FlowInv(cfg, s.flows[f], ViewOf(s.poller, f));
    FlowBounds(cfg, s.flows[f], ViewOf(s.poller, f));
  }

  lemma FinishedRests(cfg: CC.Config, sqrt: real -> real, s: System)
    requires s.poller == Finished
    ensures !PollerCanMove(cfg, sqrt, s)
  {
  }
}
