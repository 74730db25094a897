/**
 * The whole client: one sender thread per flow, the network card, and the poller that all flows
 * share, interleaved in micro-steps. Accesses are sequentially consistent.
 */
module RdmaProtocol {
  import opened Sequences
  import opened RdmaFlow
  import CC = CongestionControl

  const MAX_POLL: nat := 6

  /** The poller between polls, inside a batch of completions, or returned. */
  datatype Poller =
    | Idle
    | Busy(wc: seq<nat>, i: nat, stage: Stage)
    | Finished
    | Failed(rest: seq<nat>, handled: nat)

  /** `cq` holds the ids of completed segments, oldest first; `countdown` is what the poller still expects. */
  datatype System = System(flows: seq<Flow>, cq: seq<nat>, poller: Poller, countdown: int)

  datatype Step =
    | Sender(f: nat, ch: Choice)
    | CardCompletes(f: nat, q: nat)
    | Poll(n: nat)
    | ObserveBusy
    | CreditBack
    | MeasureRtt(cqeTime: nat)
    | UpdateWindow(t1: nat)
    | ClampWindow(t2: nat)
    | FreeSlot
    | ReturnDone
    | ReturnFailed

  // ---------------------------------------------------------------- the transition relation

  /** The poller is at some stage of a completion of one of the flows. */
  ghost predicate InBatch(s: System) {
    && s.poller.Busy? && s.poller.i < |s.poller.wc|
    && CurFlow(s) < |s.flows| && |s.flows[CurFlow(s)].ring| == RING
  }

  ghost function CurFlow(s: System): nat
    requires s.poller.Busy? && s.poller.i < |s.poller.wc|
  {
    UnpackFlow(s.poller.wc[s.poller.i])
  }

  ghost function CurSeq(s: System): nat
    requires s.poller.Busy? && s.poller.i < |s.poller.wc|
  {
    UnpackSeq(s.poller.wc[s.poller.i])
  }

  ghost function WithUpdate(cfg: CC.Config, sqrt: real -> real, fl: Flow, rttNs: nat, t1: nat): Flow
    requires CC.ValidConfig(cfg, sqrt) && CC.ValidState(cfg, fl.cc)
  {
    fl.(cc := CC.Updated(cfg, sqrt, fl.cc, rttNs as real / 1000.0, t1))
  }

  ghost function SetFlow(s: System, f: nat, fl: Flow): System
    requires f < |s.flows|
  {
    s.(flows := s.flows[f := fl])
  }

  ghost function SetStage(s: System, stage: Stage): System
    requires s.poller.Busy?
  {
    s.(poller := s.poller.(stage := stage))
  }

  ghost function AfterFree(p: Poller): Poller
    requires p.Busy?
  {
    if p.i + 1 == |p.wc| then Idle else p.(i := p.i + 1, stage := Waiting)
  }

  ghost predicate Next(cfg: CC.Config, sqrt: real -> real, s: System, step: Step, s': System) {
    match step
    case Sender(f, ch) =>
      && f < |s.flows| && f < 256 && |s.flows[f].ring| == |s.flows[f].occupant| == RING
      && s' == SetFlow(s, f, SenderStep(s.flows[f], f, ch))
    case CardCompletes(f, q) =>
      && f < |s.flows| && f < 256 && q < Posted(s.flows[f]) && q !in s.flows[f].arrived
      && s' == SetFlow(s, f, Complete(s.flows[f], q)).(cq := s.cq + [Pack(f, q)])
    case Poll(n) =>
      && s.poller == Idle && s.countdown != 0 && 1 <= n <= MAX_POLL && n <= |s.cq|
      && s' == s.(cq := s.cq[n..], poller := Busy(s.cq[..n], 0, Waiting))
    case ObserveBusy =>
      && InBatch(s) && s.poller.stage == Waiting
      && !s.flows[CurFlow(s)].ring[Ix(CurSeq(s))].free
      && s' == SetStage(s, ToCredit)
    case CreditBack =>
      && InBatch(s) && s.poller.stage == ToCredit
      && s' == SetStage(SetFlow(s, CurFlow(s), Credit(s.flows[CurFlow(s)], CurSeq(s))), ToRtt)
    case MeasureRtt(cqeTime) =>
      && InBatch(s) && s.poller.stage == ToRtt
      && s' == SetStage(s, ToUpdate(Rtt(cqeTime, s.flows[CurFlow(s)].ring[Ix(CurSeq(s))].stamp)))
    case UpdateWindow(t1) =>
      && InBatch(s) && s.poller.stage.ToUpdate?
      && var fl := s.flows[CurFlow(s)];
      && CC.ValidConfig(cfg, sqrt) && CC.ValidState(cfg, fl.cc)
      && s' == SetStage(SetFlow(s, CurFlow(s), WithUpdate(cfg, sqrt, fl, s.poller.stage.rttNs, t1)), ToClamp)
    case ClampWindow(t2) =>
      && InBatch(s) && s.poller.stage == ToClamp
      && var fl := s.flows[CurFlow(s)];
         s' == SetStage(SetFlow(s, CurFlow(s), fl.(cc := CC.Settled(fl.cc, t2))), ToFree)
    case FreeSlot =>
      && InBatch(s) && s.poller.stage == ToFree
      && s' == SetFlow(s, CurFlow(s), Free(s.flows[CurFlow(s)], CurSeq(s))).(
             poller := AfterFree(s.poller),
             countdown := s.countdown - if AfterFree(s.poller) == Idle then |s.poller.wc| else 0)
    case ReturnDone =>
      s.poller == Idle && s.countdown == 0 && s' == s.(poller := Finished)
    case ReturnFailed =>
      || (s.poller == Idle && s' == s.(poller := Failed([], 0)))
      || (s.poller.Busy? && s.poller.stage == Waiting && s.poller.i < |s.poller.wc|
          && s' == s.(poller := Failed(s.poller.wc[s.poller.i..], s.poller.i)))
  }

  ghost predicate Init(s: System) {
    && |s.flows| <= 256 && s.cq == [] && s.poller == Idle && s.countdown == Unfreed(s.flows)
    && forall f :: 0 <= f < |s.flows| ==> InitFlow(s.flows[f])
  }

  ghost predicate InitFlow(fl: Flow) {
    exists window, now :: fl.iters < SEQ_LIMIT && CC.MIN_WINDOW <= window <= CC.MAX_WINDOW
                          && fl == InitialFlow(fl.iters, window, now)
  }

  // ---------------------------------------------------------------- the invariant

  /** Segments not yet freed, over all flows. */
  ghost function Unfreed(flows: seq<Flow>): int {
    if flows == [] then 0
    else Unfreed(flows[..|flows| - 1]) + flows[|flows| - 1].iters - |flows[|flows| - 1].freed|
  }

  ghost function ViewOf(p: Poller, f: nat): View {
    if p.Busy? && p.i < |p.wc| && UnpackFlow(p.wc[p.i]) == f then Handling(UnpackSeq(p.wc[p.i]), p.stage) else Elsewhere
  }

  /** The completions that have not been handled to the end: the rest of the batch, then the queue. */
  ghost function Pending(s: System): seq<nat> {
    (match s.poller
     case Busy(wc, i, stage) => if i <= |wc| then wc[i..] else []
     case Failed(rest, handled) => rest
     case _ => []) + s.cq
  }

  ghost predicate Outstanding(flows: seq<Flow>, w: nat) {
    var f, q := UnpackFlow(w), UnpackSeq(w);
    f < |flows| && q in flows[f].arrived && q !in flows[f].freed
  }

  /** Every completed and not yet freed segment is pending exactly once, and nothing else is. */
  ghost predicate Tracked(flows: seq<Flow>, pending: seq<nat>) {
    NoDup(pending) && forall w :: w in pending <==> Outstanding(flows, w)
  }

  ghost predicate FlowsInv(cfg: CC.Config, flows: seq<Flow>, p: Poller) {
    forall f :: 0 <= f < |flows| ==> FlowInv(cfg, flows[f], ViewOf(p, f))
  }

  ghost function HandledInBatch(p: Poller): nat {
    match p
    case Busy(wc, i, stage) => i
    case Failed(rest, handled) => handled
    case _ => 0
  }

  ghost predicate Inv(cfg: CC.Config, s: System) {
    && |s.flows| <= 256
    && FlowsInv(cfg, s.flows, s.poller)
    && Tracked(s.flows, Pending(s))
    && (s.poller.Busy? ==> s.poller.i < |s.poller.wc| <= MAX_POLL)
    && (s.poller.Finished? ==> s.countdown == 0)
    && s.countdown == Unfreed(s.flows) + HandledInBatch(s.poller)
  }

  // ---------------------------------------------------------------- sums and ids

  lemma {:induction false} UnfreedUpdate(flows: seq<Flow>, f: nat, fl: Flow)
    requires f < |flows|
    ensures Unfreed(flows[f := fl])
            == Unfreed(flows) - (flows[f].iters - |flows[f].freed|) + (fl.iters - |fl.freed|)
  {
    var n := |flows| - 1;
    if f == n {
      assert flows[f := fl][..n] == flows[..n];
    } else {
      assert flows[f := fl][..n] == flows[..n][f := fl];
      UnfreedUpdate(flows[..n], f, fl);
    }
  }

  lemma IdOf(w: nat, f: nat, q: nat)
    requires f < 256 && q < SEQ_LIMIT
    ensures w == Pack(f, q) <==> UnpackFlow(w) == f && UnpackSeq(w) == q
  {
    PackFacts(f, q);
    assert w == UnpackFlow(w) * SEQ_LIMIT + UnpackSeq(w);
  }

  /** Changing one flow without touching what has arrived and been freed changes nothing that is pending. */
  lemma SameOutstanding(flows: seq<Flow>, f: nat, fl: Flow, pending: seq<nat>)
    requires f < |flows| && fl.arrived == flows[f].arrived && fl.freed == flows[f].freed && fl.iters == flows[f].iters
    requires Tracked(flows, pending)
    ensures Tracked(flows[f := fl], pending) && Unfreed(flows[f := fl]) == Unfreed(flows)
  {
    UnfreedUpdate(flows, f, fl);
    forall w ensures Outstanding(flows[f := fl], w) <==> Outstanding(flows, w) {
    }
  }

  lemma OneFlowChanges(cfg: CC.Config, flows: seq<Flow>, p: Poller, f: nat, fl: Flow, p': Poller)
    requires FlowsInv(cfg, flows, p) && f < |flows| && FlowInv(cfg, fl, ViewOf(p', f))
    requires forall g :: 0 <= g < |flows| && g != f ==> ViewOf(p', g) == ViewOf(p, g)
    ensures FlowsInv(cfg, flows[f := fl], p')
  {
    hide FlowInv;
    forall g | 0 <= g < |flows| ensures FlowInv(cfg, flows[f := fl][g], ViewOf(p', g)) {
      if g != f {
        assert FlowInv(cfg, flows[g], ViewOf(p, g));
      }
    }
  }

  // ---------------------------------------------------------------- every step keeps the invariant

  lemma SenderStepInv(cfg: CC.Config, sqrt: real -> real, s: System, f: nat, ch: Choice, s': System)
    requires Inv(cfg, s) && Next(cfg, sqrt, s, Sender(f, ch), s')
    ensures Inv(cfg, s')
  {
    hide FlowInv, Tracked;
    assert FlowInv(cfg, s.flows[f], ViewOf(s.poller, f));
    SenderKeepsInv(cfg, s.flows[f], ViewOf(s.poller, f), f, ch);
    SenderFrame(s.flows[f], f, ch);
    SameOutstanding(s.flows, f, SenderStep(s.flows[f], f, ch), Pending(s));
    OneFlowChanges(cfg, s.flows, s.poller, f, SenderStep(s.flows[f], f, ch), s.poller);
  }

  lemma SenderFrame(fl: Flow, f: nat, ch: Choice)
    requires f < 256 && |fl.ring| == |fl.occupant| == RING
    ensures var r := SenderStep(fl, f, ch);
            r.arrived == fl.arrived && r.freed == fl.freed && r.credited == fl.credited && r.iters == fl.iters
  {
  }

  lemma CompleteStepInv(cfg: CC.Config, sqrt: real -> real, s: System, f: nat, q: nat, s': System)
    requires Inv(cfg, s) && Next(cfg, sqrt, s, CardCompletes(f, q), s')
    ensures Inv(cfg, s')
  {
    hide FlowInv, Tracked;
    var fl := s.flows[f];
    assert FlowInv(cfg, fl, ViewOf(s.poller, f));
    FlowBounds(cfg, fl, ViewOf(s.poller, f));
    CompleteKeepsInv(cfg, fl, ViewOf(s.poller, f), q);
    OneFlowChanges(cfg, s.flows, s.poller, f, Complete(fl, q), s.poller);
    UnfreedUpdate(s.flows, f, Complete(fl, q));
    TrackOneMore(s.flows, f, q, Pending(s));
    assert Pending(s') == Pending(s) + [Pack(f, q)];
  }

  lemma FlowBounds(cfg: CC.Config, fl: Flow, view: View)
    requires FlowInv(cfg, fl, view)
    ensures Posted(fl) <= fl.iters < SEQ_LIMIT && fl.freed <= fl.arrived
    ensures Below(fl.freed, Posted(fl)) && Below(fl.arrived, Posted(fl))
  {
  }

  lemma TrackOneMore(flows: seq<Flow>, f: nat, q: nat, pending: seq<nat>)
    requires f < |flows| && f < 256 && q < SEQ_LIMIT && q !in flows[f].arrived && q !in flows[f].freed
    requires Tracked(flows, pending)
    ensures Tracked(flows[f := Complete(flows[f], q)], pending + [Pack(f, q)])
  {
    var flows' := flows[f := Complete(flows[f], q)];
    forall w ensures w in pending + [Pack(f, q)] <==> Outstanding(flows', w) {
      IdOf(w, f, q);
      assert w in pending + [Pack(f, q)] <==> w in pending || w == Pack(f, q);
    }
    IdOf(Pack(f, q), f, q);
    assert !Outstanding(flows, Pack(f, q));
  }

  /** Turning to the next pending completion: it is outstanding, so its flow's view is sound. */
  lemma TurnTo(cfg: CC.Config, flows: seq<Flow>, p: Poller, p': Poller, w: nat)
    requires FlowsInv(cfg, flows, p) && Outstanding(flows, w)
    requires forall f :: 0 <= f < |flows| ==> ViewOf(p, f) == Elsewhere
    requires p'.Busy? && p'.i < |p'.wc| && p'.wc[p'.i] == w && p'.stage == Waiting
    ensures FlowsInv(cfg, flows, p')
  {
    hide FlowInv;
    forall f | 0 <= f < |flows| ensures FlowInv(cfg, flows[f], ViewOf(p', f)) {
      assert FlowInv(cfg, flows[f], ViewOf(p, f));
      if f == UnpackFlow(w) {
        StartHandling(cfg, flows[f], UnpackSeq(w));
      }
    }
  }

  lemma HeadOutstanding(flows: seq<Flow>, pending: seq<nat>)
    requires Tracked(flows, pending) && pending != []
    ensures Outstanding(flows, pending[0])
  {
    assert pending[0] in pending;
  }

  lemma PollStepInv(cfg: CC.Config, sqrt: real -> real, s: System, n: nat, s': System)
    requires Inv(cfg, s) && Next(cfg, sqrt, s, Poll(n), s')
    ensures Inv(cfg, s')
  {
    hide FlowInv, FlowsInv, Tracked, Outstanding;
    assert Pending(s) == s.cq;
    assert s.cq[..n] + s.cq[n..] == s.cq;
    assert Pending(s') == s.cq;
    HeadOutstanding(s.flows, s.cq);
    TurnTo(cfg, s.flows, s.poller, s'.poller, s.cq[0]);
  }

  /** A poller step inside one completion: one flow and the stage change, nothing arrives and nothing is freed. */
  lemma StageStepInv(cfg: CC.Config, s: System, fl: Flow, stage: Stage, s': System)
    requires Inv(cfg, s) && InBatch(s)
    requires s' == SetStage(SetFlow(s, CurFlow(s), fl), stage)
    requires FlowInv(cfg, fl, Handling(CurSeq(s), stage))
    requires var f := CurFlow(s);
             fl.arrived == s.flows[f].arrived && fl.freed == s.flows[f].freed && fl.iters == s.flows[f].iters
    ensures Inv(cfg, s')
  {
    hide FlowInv, Tracked;
    SameOutstanding(s.flows, CurFlow(s), fl, Pending(s));
    OneFlowChanges(cfg, s.flows, s.poller, CurFlow(s), fl, s'.poller);
    assert Pending(s') == Pending(s);
  }

  /** The completion being handled is of a flow that has it outstanding. */
  lemma HeadView(cfg: CC.Config, s: System)
    requires Inv(cfg, s) && s.poller.Busy?
    ensures InBatch(s) && CurFlow(s) < 256 && CurSeq(s) < SEQ_LIMIT
    ensures FlowInv(cfg, s.flows[CurFlow(s)], Handling(CurSeq(s), s.poller.stage))
  {
    assert Pending(s)[0] == s.poller.wc[s.poller.i];
    assert Outstanding(s.flows, Pending(s)[0]);
    assert FlowInv(cfg, s.flows[CurFlow(s)], ViewOf(s.poller, CurFlow(s)));
  }

  lemma PollerStepInv(cfg: CC.Config, sqrt: real -> real, s: System, step: Step, s': System)
    requires Inv(cfg, s) && Next(cfg, sqrt, s, step, s')
    requires step.ObserveBusy? || step.CreditBack? || step.MeasureRtt? || step.UpdateWindow? || step.ClampWindow?
    ensures Inv(cfg, s')
  {
    hide FlowInv, Inv, CC.ValidState, CC.ValidConfig, CC.Updated, CC.Settled;
    HeadView(cfg, s);
    var fl, q := s.flows[CurFlow(s)], CurSeq(s);
    match step
    case ObserveBusy =>
      SeeBusy(cfg, fl, q);
      StageStepInv(cfg, s, fl, ToCredit, s');
    case CreditBack =>
      CreditKeepsInv(cfg, fl, q);
      StageStepInv(cfg, s, Credit(fl, q), ToRtt, s');
    case MeasureRtt(cqeTime) =>
      RttKeepsInv(cfg, fl, q, cqeTime);
      StageStepInv(cfg, s, fl, s'.poller.stage, s');
    case UpdateWindow(t1) =>
      UpdateKeepsInv(cfg, sqrt, fl, q, s.poller.stage.rttNs, t1);
      StageStepInv(cfg, s, WithUpdate(cfg, sqrt, fl, s.poller.stage.rttNs, t1), ToClamp, s');
    case ClampWindow(t2) =>
      ClampKeepsInv(cfg, fl, q, t2);
      StageStepInv(cfg, s, fl.(cc := CC.Settled(fl.cc, t2)), ToFree, s');
  }

  lemma TrackOneLess(flows: seq<Flow>, f: nat, q: nat, pending: seq<nat>)
    requires f < |flows| && f < 256 && q < SEQ_LIMIT && |flows[f].ring| == RING
    requires pending != [] && UnpackFlow(pending[0]) == f && UnpackSeq(pending[0]) == q
    requires Tracked(flows, pending)
    ensures Tracked(flows[f := Free(flows[f], q)], pending[1..])
  {
    var flows' := flows[f := Free(flows[f], q)];
    forall w ensures w in pending[1..] <==> Outstanding(flows', w) {
      IdOf(w, f, q);
      IdOf(pending[0], f, q);
      assert w in pending <==> w == pending[0] || w in pending[1..];
      assert pending[0] !in pending[1..];
      assert Outstanding(flows', w) <==> Outstanding(flows, w) && w != pending[0];
    }
  }

  lemma FreeStepInv(cfg: CC.Config, sqrt: real -> real, s: System, s': System)
    requires Inv(cfg, s) && Next(cfg, sqrt, s, FreeSlot, s')
    ensures Inv(cfg, s')
  {
    hide FlowInv, CC.ValidState, Tracked;
    HeadView(cfg, s);
    var f, q := CurFlow(s), CurSeq(s);
    var fl := s.flows[f];
    FreeKeepsInv(cfg, fl, q);
    UnfreedUpdate(s.flows, f, Free(fl, q));
    assert Pending(s)[0] == s.poller.wc[s.poller.i];
    TrackOneLess(s.flows, f, q, Pending(s));
    assert Pending(s') == Pending(s)[1..];
    OneFlowChanges(cfg, s.flows, s.poller, f, Free(fl, q), Idle);
    if s'.poller.Busy? {
      assert s'.poller.wc[s'.poller.i] == Pending(s')[0];
      HeadOutstanding(s'.flows, Pending(s'));
      TurnTo(cfg, s'.flows, Idle, s'.poller, Pending(s')[0]);
    }
  }

  lemma ReturnStepInv(cfg: CC.Config, sqrt: real -> real, s: System, step: Step, s': System)
    requires Inv(cfg, s) && Next(cfg, sqrt, s, step, s') && (step.ReturnDone? || step.ReturnFailed?)
    ensures Inv(cfg, s')
  {
    hide FlowInv, Tracked;
    assert Pending(s') == Pending(s);
    forall f | 0 <= f < |s.flows| ensures FlowInv(cfg, s.flows[f], ViewOf(s'.poller, f)) {
      assert FlowInv(cfg, s.flows[f], ViewOf(s.poller, f));
      if ViewOf(s.poller, f) != Elsewhere {
        StopHandling(cfg, s.flows[f], UnpackSeq(s.poller.wc[s.poller.i]));
      }
    }
  }

  lemma NextKeepsInv(cfg: CC.Config, sqrt: real -> real, s: System, step: Step, s': System)
    requires Inv(cfg, s) && Next(cfg, sqrt, s, step, s')
    ensures Inv(cfg, s')
  {
    hide Inv, Next;
    match step
    case Sender(f, ch) => SenderStepInv(cfg, sqrt, s, f, ch, s');
    case CardCompletes(f, q) => CompleteStepInv(cfg, sqrt, s, f, q, s');
    case Poll(n) => PollStepInv(cfg, sqrt, s, n, s');
    case FreeSlot => FreeStepInv(cfg, sqrt, s, s');
    case ReturnDone => ReturnStepInv(cfg, sqrt, s, step, s');
    case ReturnFailed => ReturnStepInv(cfg, sqrt, s, step, s');
    case ObserveBusy => PollerStepInv(cfg, sqrt, s, step, s');
    case CreditBack => PollerStepInv(cfg, sqrt, s, step, s');
    case MeasureRtt(_) => PollerStepInv(cfg, sqrt, s, step, s');
    case UpdateWindow(_) => PollerStepInv(cfg, sqrt, s, step, s');
    case ClampWindow(_) => PollerStepInv(cfg, sqrt, s, step, s');
  }

  lemma InitInv(cfg: CC.Config, s: System)
    requires Init(s)
    ensures Inv(cfg, s)
  {
    forall f | 0 <= f < |s.flows| ensures FlowInv(cfg, s.flows[f], ViewOf(s.poller, f)) {
      assert InitFlow(s.flows[f]);
      var window, now :| s.flows[f].iters < SEQ_LIMIT && CC.MIN_WINDOW <= window <= CC.MAX_WINDOW
                         && s.flows[f] == InitialFlow(s.flows[f].iters, window, now);
      InitialFlowInv(cfg, s.flows[f].iters, window, now);
    }
    forall w ensures !Outstanding(s.flows, w) {
      var f := UnpackFlow(w);
      if f < |s.flows| {
        assert InitFlow(s.flows[f]);
      }
    }
  }
}
