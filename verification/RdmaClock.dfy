/** Client runs under a clock that never runs backwards: each flow's windows are a run of its controller. */
module RdmaClock {
  import opened Wrappers
  import opened RdmaFlow
  import opened RdmaProtocol
  import opened RdmaRuns
  import opened RdmaFairness
  import CC = CongestionControl
  import CR = CongestionRuns

  /** The acknowledgements of a flow so far, and the sample and clock reading of one that is not yet clamped. */
  datatype Trace = Trace(acks: seq<CR.Ack>, open: Option<(real, nat)>)

  ghost predicate Handles(s: System, f: nat) {
    InBatch(s) && CurFlow(s) == f
  }

  ghost function Extended(t: Trace, s: System, a: Option<Step>, f: nat): Trace {
    if a.None? || !Handles(s, f) then t
    else if a.value.UpdateWindow? && s.poller.stage.ToUpdate? then
      t.(open := Some((s.poller.stage.rttNs as real / 1000.0, a.value.t1)))
    else if a.value.ClampWindow? && t.open.Some? then
      Trace(t.acks + [CR.Ack(t.open.value.0, t.open.value.1, a.value.t2)], None)
    else t
  }

  ghost function TraceOf(run: Run, sched: Schedule, f: nat, n: nat): Trace {
    if n == 0 then Trace([], None) else Extended(TraceOf(run, sched, f, n - 1), run(n - 1), sched(n - 1), f)
  }

  ghost function Reading(a: Option<Step>, before: nat): nat {
    if a.None? then before
    else match a.value
      case UpdateWindow(t1) => t1
      case ClampWindow(t2) => t2
      case _ => before
  }

  /** The latest clock reading, from one that is taken before the run. */
  ghost function Now(sched: Schedule, start: nat, n: nat): nat {
    if n == 0 then start else Reading(sched(n - 1), Now(sched, start, n - 1))
  }

  ghost predicate ClockRuns(sched: Schedule, start: nat, n: nat) {
    forall k: nat :: k < n ==> Now(sched, start, k) <= Now(sched, start, k + 1)
  }

  /** The controller is where the acknowledgements of its trace take it. */
  ghost predicate Follows(cfg: CC.Config, sqrt: real -> real, cc0: CC.State, t: Trace, cc: CC.State)
    requires CC.ValidConfig(cfg, sqrt) && CC.ValidState(cfg, cc0)
  {
    var after := CR.After(cfg, sqrt, cc0, t.acks);
    cc == if t.open.None? then after else CC.Updated(cfg, sqrt, after, t.open.value.0, t.open.value.1)
  }

  ghost predicate InTime(start: nat, t: Trace, now: nat) {
    && CR.Monotone(start, t.acks) && CR.EndTime(start, t.acks) <= now
    && (t.open.Some? ==> CR.EndTime(start, t.acks) <= t.open.value.1 <= now)
  }

  /** Between its update and its clamp. */
  ghost predicate MidAck(s: System, f: nat) {
    Handles(s, f) && s.poller.stage == ToClamp
  }

  ghost predicate OpenNow(s: System, f: nat, t: Trace) {
    t.open.Some? <==> MidAck(s, f)
  }

  lemma AckAppended(cfg: CC.Config, sqrt: real -> real, s: CC.State, acks: seq<CR.Ack>, ack: CR.Ack)
    requires CC.ValidConfig(cfg, sqrt) && CC.ValidState(cfg, s)
    ensures CR.After(cfg, sqrt, s, acks + [ack])
            == CC.Settled(CC.Updated(cfg, sqrt, CR.After(cfg, sqrt, s, acks), ack.sample, ack.t1), ack.t2)
    ensures forall start: nat :: CR.EndTime(start, acks + [ack]) == ack.t2
    ensures forall start: nat :: CR.Monotone(start, acks + [ack])
                                 <==> CR.Monotone(start, acks) && CR.EndTime(start, acks) <= ack.t1 <= ack.t2
  {
    hide CC.Updated, CC.Settled, CC.ValidConfig, CC.ValidState;
    assert (acks + [ack])[..|acks|] == acks;
    CR.AfterStep(cfg, sqrt, s, acks + [ack]);
  }

  /** How a step changes a flow's controller, and whether the flow is between update and clamp. */
  ghost predicate ControllerStep(cfg: CC.Config, sqrt: real -> real, s: System, a: Option<Step>, s': System, f: nat)
    requires f < |s.flows| && f < |s'.flows|
  {
    var cc, cc' := s.flows[f].cc, s'.flows[f].cc;
    if a.Some? && a.value.UpdateWindow? && Handles(s, f) then
      && s.poller.stage.ToUpdate? && CC.ValidConfig(cfg, sqrt) && CC.ValidState(cfg, cc)
      && cc' == CC.Updated(cfg, sqrt, cc, s.poller.stage.rttNs as real / 1000.0, a.value.t1) && MidAck(s', f)
    else if a.Some? && a.value.ClampWindow? && Handles(s, f) then
      MidAck(s, f) && cc' == CC.Settled(cc, a.value.t2) && !MidAck(s', f)
    else
      cc' == cc && (MidAck(s', f) <==> MidAck(s, f))
  }

  lemma StepOfController(cfg: CC.Config, sqrt: real -> real, s: System, a: Option<Step>, s': System, f: nat)
    requires Inv(cfg, s) && Inv(cfg, s') && Moves(cfg, sqrt, s, a, s') && f < |s.flows|
    ensures f < |s'.flows| && ControllerStep(cfg, sqrt, s, a, s', f)
  {
    hide Inv, Next, ControllerStep;
    RingsHaveSize(cfg, s);
    RingsHaveSize(cfg, s');
    if a.None? {
      NoStepOfController(cfg, sqrt, s, f);
    } else if a.value.Sender? || a.value.CardCompletes? {
      OtherStepOfController(cfg, sqrt, s, a.value, s', f);
    } else {
      PollerStepOfController(cfg, sqrt, s, a.value, s', f);
    }
  }

  lemma NoStepOfController(cfg: CC.Config, sqrt: real -> real, s: System, f: nat)
    requires f < |s.flows|
    ensures ControllerStep(cfg, sqrt, s, None, s, f)
  {
  }

  ghost predicate FullRings(s: System) {
    forall g :: 0 <= g < |s.flows| ==> |s.flows[g].ring| == |s.flows[g].occupant| == RING
  }

  lemma OtherStepOfController(cfg: CC.Config, sqrt: real -> real, s: System, step: Step, s': System, f: nat)
    requires Next(cfg, sqrt, s, step, s') && f < |s.flows| && FullRings(s) && FullRings(s')
    requires step.Sender? || step.CardCompletes?
    ensures f < |s'.flows| && ControllerStep(cfg, sqrt, s, Some(step), s', f)
  {
    hide SenderStep;
    if step.Sender? {
      SenderKeepsController(s.flows[step.f], step.f, step.ch);
    }
  }

  lemma PollerStepOfController(cfg: CC.Config, sqrt: real -> real, s: System, step: Step, s': System, f: nat)
    requires Next(cfg, sqrt, s, step, s') && f < |s.flows| && FullRings(s) && FullRings(s')
    requires !step.Sender? && !step.CardCompletes?
    ensures f < |s'.flows| && ControllerStep(cfg, sqrt, s, Some(step), s', f)
  {
    hide CC.Updated, CC.Settled, CC.ValidConfig, CC.ValidState;
  }

  lemma SenderKeepsController(fl: Flow, f: nat, ch: Choice)
    requires f < 256 && |fl.ring| == |fl.occupant| == RING
    ensures SenderStep(fl, f, ch).cc == fl.cc
  {
  }

  /** Along any run each flow's controller has handled exactly the acknowledgements of its trace, in order of time. */
  lemma {:induction false} ControllersFollow(cfg: CC.Config, sqrt: real -> real, run: Run, sched: Schedule, start: nat,
                                             f: nat, n: nat)
    requires CC.ValidConfig(cfg, sqrt) && RunsFor(cfg, sqrt, run, sched, n) && ClockRuns(sched, start, n)
    requires f < |run(0).flows| && run(0).flows[f].cc.lastDecrease <= start
    ensures f < |run(n).flows|
    ensures var cc0, t := run(0).flows[f].cc, TraceOf(run, sched, f, n);
            && CC.ValidState(cfg, cc0)
            && Follows(cfg, sqrt, cc0, t, run(n).flows[f].cc)
            && InTime(cc0.lastDecrease, t, Now(sched, start, n))
            && OpenNow(run(n), f, t)
  {
    hide Inv, Init, Next, Moves, CC.ValidConfig, CC.ValidState, CC.Updated, CC.Settled, Handles, InTime, Follows;
    var cc0 := run(0).flows[f].cc;
    ControllerAtStart(cfg, run(0), f);
    if n == 0 {
      TraceAtStart(cfg, sqrt, run(0), f, cc0, start);
    } else {
      ControllersFollow(cfg, sqrt, run, sched, start, f, n - 1);
      RunKeepsInv(cfg, sqrt, run, sched, n - 1);
      RunKeepsInv(cfg, sqrt, run, sched, n);
      assert Moves(cfg, sqrt, run(n - 1), sched(n - 1), run(n - 1 + 1));
      assert Now(sched, start, n - 1) <= Now(sched, start, n - 1 + 1);
      TraceStep(cfg, sqrt, run(n - 1), sched(n - 1), run(n), f, cc0, TraceOf(run, sched, f, n - 1),
                Now(sched, start, n - 1));
    }
  }

  lemma ControllerAtStart(cfg: CC.Config, s: System, f: nat)
    requires Init(s) && f < |s.flows|
    ensures CC.ValidState(cfg, s.flows[f].cc)
    ensures exists window :: CC.MIN_WINDOW <= window <= CC.MAX_WINDOW
                             && s.flows[f].cc == CC.Initial(window, s.flows[f].cc.lastDecrease)
  {
    assert InitFlow(s.flows[f]);
  }

  lemma TraceAtStart(cfg: CC.Config, sqrt: real -> real, s: System, f: nat, cc0: CC.State, start: nat)
    requires CC.ValidConfig(cfg, sqrt) && CC.ValidState(cfg, cc0) && Init(s) && cc0.lastDecrease <= start
    ensures Follows(cfg, sqrt, cc0, Trace([], None), cc0) && InTime(cc0.lastDecrease, Trace([], None), start)
    ensures OpenNow(s, f, Trace([], None))
  {
  }

  lemma TraceStep(cfg: CC.Config, sqrt: real -> real, s: System, a: Option<Step>, s': System, f: nat, cc0: CC.State,
                  t: Trace,
                  now: nat)
    requires CC.ValidConfig(cfg, sqrt) && CC.ValidState(cfg, cc0)
    requires Inv(cfg, s) && Inv(cfg, s') && Moves(cfg, sqrt, s, a, s') && f < |s.flows|
    requires Follows(cfg, sqrt, cc0, t, s.flows[f].cc) && InTime(cc0.lastDecrease, t, now) && OpenNow(s, f, t)
    requires now <= Reading(a, now)
    ensures f < |s'.flows|
    ensures var t' := Extended(t, s, a, f);
            Follows(cfg, sqrt, cc0, t', s'.flows[f].cc) && InTime(cc0.lastDecrease, t', Reading(a, now))
            && OpenNow(s', f, t')
  {
    hide Inv, Moves, CC.ValidConfig, CC.ValidState, CC.Updated, CC.Settled, Handles, CR.After, CR.Monotone, CR.EndTime;
    StepOfController(cfg, sqrt, s, a, s', f);
    if a.Some? && a.value.ClampWindow? && Handles(s, f) {
      AckAppended(cfg, sqrt, cc0, t.acks, CR.Ack(t.open.value.0, t.open.value.1, a.value.t2));
    }
  }

  /** In every client run under such a clock, k window decreases of a flow take more than k base RTTs. */
  lemma ClientDecreasesTakeTime(cfg: CC.Config, sqrt: real -> real, run: Run, sched: Schedule, start: nat, f: nat,
                                n: nat)
    requires CC.ValidConfig(cfg, sqrt) && cfg.freqGhz > 0.0
    requires RunsFor(cfg, sqrt, run, sched, n) && ClockRuns(sched, start, n)
    requires f < |run(0).flows| && run(0).flows[f].cc.lastDecrease <= start
    ensures var cc0 := run(0).flows[f].cc;
            && CC.ValidState(cfg, cc0)
            && var k := CR.Decreases(cfg, sqrt, cc0, TraceOf(run, sched, f, n).acks);
               k > 0 ==> CC.ElapsedUs(cfg, cc0.lastDecrease, Now(sched, start, n)) > CR.Times(k, cfg.baseRtt)
  {
    hide Init, Next, Moves, CC.ValidConfig, CC.ElapsedUs, CR.Times, CR.Decreases;
    ControllersFollow(cfg, sqrt, run, sched, start, f, n);
    var cc0, acks := run(0).flows[f].cc, TraceOf(run, sched, f, n).acks;
    ControllerAtStart(cfg, run(0), f);
    var window :| CC.MIN_WINDOW <= window <= CC.MAX_WINDOW && cc0 == CC.Initial(window, cc0.lastDecrease);
    CR.KDecreasesTakeKBaseRtts(cfg, sqrt, window, cc0.lastDecrease, acks);
    EndIsLater(cc0.lastDecrease, acks);
    CR.ElapsedAdds(cfg, cc0.lastDecrease, CR.EndTime(cc0.lastDecrease, acks), Now(sched, start, n));
  }

  lemma {:induction false} EndIsLater(start: nat, acks: seq<CR.Ack>)
    requires CR.Monotone(start, acks)
    ensures start <= CR.EndTime(start, acks)
  {
    if acks != [] {
      EndIsLater(start, acks[..|acks| - 1]);
    }
  }
}
