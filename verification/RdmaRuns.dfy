/** Whole runs of the RDMA client: what no interleaving can break, and that the work can always be finished. */
module RdmaRuns {
  import opened Sequences
  import opened RdmaFlow
  import opened RdmaProtocol
  import CC = CongestionControl

  // ---------------------------------------------------------------- safety

  /** One micro-step of some thread or of the card. */
  ghost predicate Steps(cfg: CC.Config, sqrt: real -> real, s: System, s': System) {
    exists step :: Next(cfg, sqrt, s, step, s')
  }

  /** A run from an initial state, in any interleaving. */
  ghost predicate IsRun(cfg: CC.Config, sqrt: real -> real, run: seq<System>) {
    var n := |run| - 1;
    if n <= 0 then n == 0 && Init(run[0])
    else IsRun(cfg, sqrt, run[..n]) && Steps(cfg, sqrt, run[n - 1], run[n])
  }

  lemma {:induction false} RunInv(cfg: CC.Config, sqrt: real -> real, run: seq<System>)
    requires IsRun(cfg, sqrt, run)
    ensures Inv(cfg, run[|run| - 1])
  {
    hide Inv, Next;
    var n := |run| - 1;
    if n == 0 {
      InitInv(cfg, run[0]);
    } else {
      RunInv(cfg, sqrt, run[..n]);
      var step :| Next(cfg, sqrt, run[n - 1], step, run[n]);
      NextKeepsInv(cfg, sqrt, run[n - 1], step, run[n]);
    }
  }

  /** Segments with the same slot are never outstanding together, from the post until the slot is freed. */
  ghost predicate NoSharedSlot(fl: Flow) {
    forall p, q :: 0 <= p < q < Posted(fl) && p !in fl.freed && q !in fl.freed ==> p % 64 != q % 64
  }

  /** Posted exactly once each, in order, and never beyond the flow's quota. */
  ghost predicate PostedOnceInOrder(fl: Flow) {
    |fl.log| <= fl.iters && forall k :: 0 <= k < |fl.log| ==> fl.log[k] == k
  }

  ghost predicate SafeFlow(fl: Flow) {
    && NoSharedSlot(fl) && PostedOnceInOrder(fl)
    && 0 <= fl.inflight
    && |fl.log| - |fl.credited| <= 20
    && (fl.pc.Posting? ==> fl.pc.n <= 20)
  }

  /** What the poller is about to do with segment q of the flow is sound. */
  ghost predicate SafePolling(fl: Flow, q: nat, stage: Stage) {
    && |fl.ring| == RING
    && (stage == ToCredit ==> fl.inflight >= 1)
    && (stage == ToRtt ==> q < |fl.stamps| && fl.ring[Ix(q)].stamp == fl.stamps[q])
    && (stage == ToFree ==> !fl.ring[Ix(q)].free)
  }

  /** Everything was posted, completed, credited and freed. */
  ghost predicate FullyDelivered(fl: Flow) {
    && |fl.log| == fl.iters && fl.inflight == 0
    && forall q :: 0 <= q < fl.iters ==> q in fl.arrived && q in fl.credited && q in fl.freed
  }

  ghost predicate Safe(s: System) {
    && (forall f :: 0 <= f < |s.flows| ==> SafeFlow(s.flows[f]))
    && (s.poller.Busy? ==> |s.poller.wc| <= 6)
    && (s.poller.Busy? ==> InBatch(s) && SafePolling(s.flows[CurFlow(s)], CurSeq(s), s.poller.stage))
    && s.countdown >= 0
    && ((s.poller == Idle && s.countdown == 0) || s.poller == Finished
        ==> forall f :: 0 <= f < |s.flows| ==> FullyDelivered(s.flows[f]))
  }

  lemma FlowIsSafe(cfg: CC.Config, fl: Flow, view: View)
    requires FlowInv(cfg, fl, view)
    ensures SafeFlow(fl)
    ensures view.Handling? ==> SafePolling(fl, view.q, view.stage)
  {
    hide CC.ValidState, SenderSound, Posted, Counted, Marked, Stamped, NoSharedSlot, SlotsDistinct;
    InflightNonNegative(cfg, fl, view);
    FewUncredited(cfg, fl, view);
    DistinctIsUnshared(fl);
    if view.Handling? && view.stage == ToCredit {
      CreditKeepsInv(cfg, fl, view.q);
    } else if view.Handling? && view.stage == ToRtt {
      RttKeepsInv(cfg, fl, view.q, 0);
    }
  }

  lemma DistinctIsUnshared(fl: Flow)
    requires SlotsDistinct(Posted(fl), fl.freed)
    ensures NoSharedSlot(fl)
  {
    hide Posted;
  }

  /** At most twenty posted segments are not yet credited back, and a batch is no longer than that. */
  lemma FewUncredited(cfg: CC.Config, fl: Flow, view: View)
    requires FlowInv(cfg, fl, view)
    ensures Posted(fl) <= fl.iters && Posted(fl) - |fl.credited| <= 20
    ensures fl.pc.Posting? ==> fl.pc.n <= 20
  {
    hide CC.ValidState, SlotsHeld, SlotsDistinct, StampsKept, PostedInOrder, FreeAhead, Below, ControllerSound,
         ViewSound;
  }

  lemma {:induction false} FullSet(s: set<nat>, n: nat)
    requires Below(s, n) && |s| == n
    ensures forall q :: 0 <= q < n ==> q in s
  {
    if n > 0 {
      if n - 1 in s {
        FullSet(s - {n - 1}, n - 1);
      } else {
        BelowFits(s, n - 1);
      }
    }
  }

  /** A flow has no more freed segments than its quota; with as many it is fully delivered. */
  lemma FreedFits(cfg: CC.Config, fl: Flow, view: View)
    requires FlowInv(cfg, fl, view)
    ensures |fl.freed| <= fl.iters
    ensures |fl.freed| == fl.iters ==> FullyDelivered(fl)
  {
    hide CC.ValidState;
    FlowBounds(cfg, fl, view);
    BelowFits(fl.freed, Posted(fl));
    if |fl.freed| == fl.iters {
      FullSet(fl.freed, fl.iters);
      BelowFits(fl.credited, Marked(fl));
      SubsetCardinality(fl.freed, fl.credited);
      assert Marked(fl) <= Counted(fl) <= Posted(fl);
    }
  }

  lemma {:induction false} UnfreedZero(cfg: CC.Config, flows: seq<Flow>, p: Poller)
    requires FlowsInv(cfg, flows, p)
    ensures Unfreed(flows) >= 0
    ensures Unfreed(flows) == 0 ==> forall f :: 0 <= f < |flows| ==> |flows[f].freed| == flows[f].iters
  {
    hide FlowInv;
    if flows != [] {
      var n := |flows| - 1;
      forall f | 0 <= f < n ensures FlowInv(cfg, flows[..n][f], ViewOf(p, f)) {
        assert FlowInv(cfg, flows[f], ViewOf(p, f));
      }
      UnfreedZero(cfg, flows[..n], p);
      assert FlowInv(cfg, flows[n], ViewOf(p, n));
      FreedFits(cfg, flows[n], ViewOf(p, n));
      forall f | 0 <= f < n && Unfreed(flows) == 0 ensures |flows[f].freed| == flows[f].iters {
        assert flows[..n][f] == flows[f];
      }
    }
  }

  lemma InvIsSafe(cfg: CC.Config, s: System)
    requires Inv(cfg, s)
    ensures Safe(s)
  {
    hide FlowInv, SafeFlow, SafePolling, FullyDelivered, Tracked;
    UnfreedZero(cfg, s.flows, s.poller);
    forall f | 0 <= f < |s.flows|
      ensures SafeFlow(s.flows[f])
      ensures Unfreed(s.flows) == 0 ==> FullyDelivered(s.flows[f])
    {
      assert FlowInv(cfg, s.flows[f], ViewOf(s.poller, f));
      FlowIsSafe(cfg, s.flows[f], ViewOf(s.poller, f));
      FreedFits(cfg, s.flows[f], ViewOf(s.poller, f));
    }
    if s.poller.Busy? {
      HeadView(cfg, s);
      FlowIsSafe(cfg, s.flows[CurFlow(s)], Handling(CurSeq(s), s.poller.stage));
    }
  }

  /** The safety theorem: every state of every run is safe. */
  lemma {:induction false} EveryRunIsSafe(cfg: CC.Config, sqrt: real -> real, run: seq<System>, k: nat)
    requires IsRun(cfg, sqrt, run) && k < |run|
    ensures Safe(run[k])
  {
    hide Inv, Steps, Safe;
    if k < |run| - 1 {
      EveryRunIsSafe(cfg, sqrt, run[..|run| - 1], k);
    } else {
      RunInv(cfg, sqrt, run);
      InvIsSafe(cfg, run[k]);
    }
  }

  // ---------------------------------------------------------------- a quiet flow posts on its next pass

  /** Everything the flow has posted so far has been completed, credited and freed. */
  ghost predicate Quiet(fl: Flow) {
    fl.arrived == fl.freed && |fl.freed| == Posted(fl)
  }

  /** A bound on the steps that a quiet sender can take before its next post, or its return. */
  ghost function SenderRank(pc: Pc): nat {
    match pc
    case Done => 0
    case LoopTop => 30
    case HasWindow(_) => 29
    case Pacing(_) => 28
    case Sizing(_) => 28
    case Scanning(allow, i) => if allow == 0 then 31 else if i <= 20 then 27 - i else 0
    case Posting(n, i, step, _) =>
      match step
      case ToPost => if i == n then 37 else 5
      case ToStamp => 40
      case ToCount => 39
      case ToMark => 38
  }

  lemma QuietFacts(cfg: CC.Config, fl: Flow)
    requires FlowInv(cfg, fl, Elsewhere) && Quiet(fl)
    ensures Marked(fl) == Posted(fl) && fl.inflight == 0
    ensures forall b :: 0 <= b < RING ==> fl.ring[b].free
  {
    hide CC.ValidState, SlotsDistinct, StampsKept, PostedInOrder;
    BelowFits(fl.freed, Marked(fl));
    FullSet(fl.freed, Posted(fl));
  }

  /**
   * With nothing of the flow outstanding, a sender step that is not a post brings the sender nearer to
   * one, or to its return: it never goes round its loop without trying to post.
   */
  lemma QuietSenderAdvances(cfg: CC.Config, fl: Flow, f: nat, ch: Choice)
    requires FlowInv(cfg, fl, Elsewhere) && Quiet(fl) && f < 256 && fl.pc != Done
    ensures var fl' := SenderStep(fl, f, ch);
            if fl.pc.Posting? && fl.pc.step == ToPost && fl.pc.i < fl.pc.n
            then ch.postOk ==> Posted(fl') == Posted(fl) + 1 && SenderRank(fl'.pc) == 40
            else Posted(fl') == Posted(fl) && SenderRank(fl'.pc) < SenderRank(fl.pc)
  {
    hide CC.ValidState, SlotsHeld, SlotsDistinct, StampsKept, PostedInOrder;
    QuietFacts(cfg, fl);
    match fl.pc
    case Sizing(w) => TruncateFacts(w, fl.inflight);
    case Scanning(allow, i) => ScanIndex(i, fl.nextSeq);
    case _ =>
  }

  lemma StepKeepsQuiet(cfg: CC.Config, fl: Flow, f: nat, ch: Choice)
    requires FlowInv(cfg, fl, Elsewhere) && f < 256
    ensures FlowInv(cfg, SenderStep(fl, f, ch), Elsewhere)
    ensures Quiet(fl) && Posted(SenderStep(fl, f, ch)) == Posted(fl) ==> Quiet(SenderStep(fl, f, ch))
  {
    hide FlowInv;
    RingSizes(cfg, fl, Elsewhere);
    SenderKeepsInv(cfg, fl, Elsewhere, f, ch);
    SenderFrame(fl, f, ch);
  }

  ghost predicate AboutToPost(fl: Flow) {
    fl.pc.Posting? && fl.pc.step == ToPost && fl.pc.i < fl.pc.n
  }

  /** The sender alone, for n steps. */
  ghost function SenderAlone(fl: Flow, f: nat, ch: Choice, n: nat): Flow
    requires f < 256
    decreases n
  {
    if n == 0 || |fl.ring| != RING || |fl.occupant| != RING then fl
    else SenderAlone(SenderStep(fl, f, ch), f, ch, n - 1)
  }

  /** With nothing of the flow outstanding and work left, the sender attempts the next segment within its pass. */
  lemma {:induction false} QuietSenderAttempts(cfg: CC.Config, fl: Flow, f: nat, ch: Choice) returns (n: nat)
    requires FlowInv(cfg, fl, Elsewhere) && Quiet(fl) && f < 256 && Posted(fl) < fl.iters
    ensures n <= SenderRank(fl.pc)
    ensures AboutToPost(SenderAlone(fl, f, ch, n)) && Posted(SenderAlone(fl, f, ch, n)) == Posted(fl)
    decreases SenderRank(fl.pc)
  {
    hide Bookkeeping, SlotsHeld, SlotsDistinct, StampsKept, PostedInOrder, ControllerSound, ViewSound;
    assert |fl.ring| == |fl.occupant| == RING by {
      RingSizes(cfg, fl, Elsewhere);
    }
    if AboutToPost(fl) {
      n := 0;
    } else {
      NotDone(cfg, fl);
      QuietSenderAdvances(cfg, fl, f, ch);
      StepKeepsQuiet(cfg, fl, f, ch);
      SenderFrame(fl, f, ch);
      var m := QuietSenderAttempts(cfg, SenderStep(fl, f, ch), f, ch);
      n := m + 1;
    }
  }

  lemma NotDone(cfg: CC.Config, fl: Flow)
    requires FlowInv(cfg, fl, Elsewhere) && Posted(fl) < fl.iters
    ensures fl.pc != Done
  {
  }

  // ---------------------------------------------------------------- when a pass attempts a post

  ghost predicate NextSlotFree(fl: Flow)
    requires |fl.ring| == RING
  {
    fl.ring[Ix(fl.nextSeq)].free
  }

  /** Nothing is in flight, there is work left, and the slot of the next segment is free. */
  ghost predicate Ready(fl: Flow) {
    |fl.ring| == RING && fl.inflight == 0 && fl.nextSeq < fl.iters && !fl.pc.Posting? && NextSlotFree(fl)
  }

  /** A ready sender comes nearer to a post with every step, whatever the poller is doing. */
  lemma ReadyAdvances(cfg: CC.Config, fl: Flow, view: View, f: nat, ch: Choice)
    requires FlowInv(cfg, fl, view) && Ready(fl) && f < 256
    ensures var fl' := SenderStep(fl, f, ch);
            && SenderRank(fl'.pc) < SenderRank(fl.pc) && Posted(fl') == Posted(fl)
            && (AboutToPost(fl') || Ready(fl'))
  {
    hide ControllerSound, SlotsHeld, SlotsDistinct, StampsKept, PostedInOrder, ViewSound, FreeAhead;
    match fl.pc
    case Sizing(w) => TruncateFacts(w, fl.inflight);
    case Scanning(allow, i) => ScanIndex(i, fl.nextSeq);
    case _ =>
  }

  lemma {:induction false} ReadyAttempts(cfg: CC.Config, fl: Flow, view: View, f: nat, ch: Choice) returns (n: nat)
    requires FlowInv(cfg, fl, view) && f < 256 && (AboutToPost(fl) || Ready(fl))
    ensures n <= SenderRank(fl.pc)
    ensures AboutToPost(SenderAlone(fl, f, ch, n)) && Posted(SenderAlone(fl, f, ch, n)) == Posted(fl)
    decreases SenderRank(fl.pc)
  {
    hide FlowInv, SenderStep, Ready, AboutToPost, SenderRank, Posted;
    if AboutToPost(fl) {
      n := 0;
    } else {
      RingSizes(cfg, fl, view);
      ReadyAdvances(cfg, fl, view, f, ch);
      SenderKeepsInv(cfg, fl, view, f, ch);
      var m := ReadyAttempts(cfg, SenderStep(fl, f, ch), view, f, ch);
      n := m + 1;
    }
  }

  /** A sender before its scan whose next slot is busy. */
  ghost predicate Blocked(fl: Flow) {
    && |fl.ring| == |fl.occupant| == RING && !NextSlotFree(fl)
    && match fl.pc
       case Posting(_, _, _, _) => false
       case Scanning(_, i) => i == 0
       case _ => true
  }

  lemma BlockedStays(fl: Flow, f: nat, ch: Choice)
    requires Blocked(fl) && f < 256
    ensures Blocked(SenderStep(fl, f, ch))
  {
    if fl.pc.Scanning? {
      ScanIndex(0, fl.nextSeq);
    }
  }

  lemma {:induction false} BlockedNeverAttempts(fl: Flow, f: nat, ch: Choice, n: nat)
    requires Blocked(fl) && f < 256
    ensures !AboutToPost(SenderAlone(fl, f, ch, n))
    decreases n
  {
    if n > 0 {
      hide SenderStep;
      BlockedStays(fl, f, ch);
      BlockedNeverAttempts(SenderStep(fl, f, ch), f, ch, n - 1);
    }
  }

  ghost predicate AttemptsWithin(fl: Flow, f: nat, ch: Choice, bound: nat)
    requires f < 256
  {
    exists n: nat :: n <= bound && AttemptsAfter(fl, f, ch, n)
  }

  ghost predicate AttemptsAfter(fl: Flow, f: nat, ch: Choice, n: nat)
    requires f < 256
  {
    AboutToPost(SenderAlone(fl, f, ch, n))
  }

  /**
   * With nothing in flight and work left, a sender at the top of its loop attempts a post exactly when the
   * slot of the next segment is free: then within thirty of its own steps, and otherwise after no number of them.
   */
  lemma AttemptsIffSlotFree(cfg: CC.Config, fl: Flow, view: View, f: nat, ch: Choice)
    requires FlowInv(cfg, fl, view) && f < 256
    requires fl.pc == LoopTop && fl.inflight == 0 && fl.nextSeq < fl.iters && |fl.ring| == RING
    ensures NextSlotFree(fl) ==> AttemptsWithin(fl, f, ch, 30)
    ensures !NextSlotFree(fl) ==> forall n: nat :: !AttemptsAfter(fl, f, ch, n)
  {
    hide FlowInv, SenderStep;
    if NextSlotFree(fl) {
      var n := ReadyAttempts(cfg, fl, view, f, ch);
      assert AttemptsAfter(fl, f, ch, n);
    } else {
      RingSizes(cfg, fl, view);
      forall n: nat ensures !AttemptsAfter(fl, f, ch, n) {
        BlockedNeverAttempts(fl, f, ch, n);
      }
    }
  }

  /** That slot is busy exactly while the poller is between crediting and freeing a segment of the same slot. */
  lemma BusyWhileHandled(cfg: CC.Config, fl: Flow, view: View)
    requires FlowInv(cfg, fl, view) && fl.pc == LoopTop && fl.inflight == 0 && |fl.ring| == RING
    ensures !NextSlotFree(fl)
            <==> view.Handling? && view.stage != Waiting && view.stage != ToCredit && Ix(view.q) == Ix(fl.nextSeq)
  {
    hide ControllerSound, SlotsDistinct, StampsKept, PostedInOrder;
    FullSet(fl.credited, Marked(fl));
    if !NextSlotFree(fl) {
      assert fl.occupant[Ix(fl.nextSeq)] in fl.credited;
    }
  }

  // ---------------------------------------------------------------- the work can always be finished

  /** The flow's remaining work: segments to post, completions to arrive, and the sender's place in its loop. */
  ghost function FlowWork(fl: Flow): int {
    100 * (fl.iters - Posted(fl)) + 20 * (Posted(fl) - |fl.arrived|) + SenderRank(fl.pc)
  }

  ghost function TotalWork(flows: seq<Flow>): int {
    if flows == [] then 0 else TotalWork(flows[..|flows| - 1]) + FlowWork(flows[|flows| - 1])
  }

  ghost function StageRank(stage: Stage): nat {
    match stage
    case Waiting => 6
    case ToCredit => 5
    case ToRtt => 4
    case ToUpdate(_) => 3
    case ToClamp => 2
    case ToFree => 1
  }

  ghost function PollerRank(p: Poller): nat {
    match p
    case Idle => 7
    case Busy(_, _, stage) => StageRank(stage)
    case _ => 0
  }

  ghost function Work(s: System): int {
    TotalWork(s.flows) + 10 * |Pending(s)| + PollerRank(s.poller)
  }

  ghost predicate AllDone(s: System) {
    s.poller == Finished && forall f :: 0 <= f < |s.flows| ==> s.flows[f].pc == Done && FullyDelivered(s.flows[f])
  }

  lemma {:induction false} WorkUpdate(flows: seq<Flow>, f: nat, fl: Flow)
    requires f < |flows|
    ensures TotalWork(flows[f := fl]) == TotalWork(flows) - FlowWork(flows[f]) + FlowWork(fl)
  {
    var n := |flows| - 1;
    if f == n {
      assert flows[f := fl][..n] == flows[..n];
    } else {
      assert flows[f := fl][..n] == flows[..n][f := fl];
      WorkUpdate(flows[..n], f, fl);
    }
  }

  lemma FlowWorkNonNegative(cfg: CC.Config, fl: Flow, view: View)
    requires FlowInv(cfg, fl, view)
    ensures FlowWork(fl) >= 0
  {
    hide CC.ValidState;
    FlowBounds(cfg, fl, view);
    BelowFits(fl.arrived, Posted(fl));
  }

  lemma {:induction false} WorkNonNegative(cfg: CC.Config, flows: seq<Flow>, p: Poller)
    requires FlowsInv(cfg, flows, p)
    ensures TotalWork(flows) >= 0
  {
    hide FlowInv, FlowWork;
    if flows != [] {
      var n := |flows| - 1;
      forall f | 0 <= f < n ensures FlowInv(cfg, flows[..n][f], ViewOf(p, f)) {
        assert FlowInv(cfg, flows[f], ViewOf(p, f));
      }
      WorkNonNegative(cfg, flows[..n], p);
      assert FlowInv(cfg, flows[n], ViewOf(p, n));
      FlowWorkNonNegative(cfg, flows[n], ViewOf(p, n));
    }
  }

  /** A sender step that lowers the work of its flow lowers the total. */
  lemma SenderHelps(cfg: CC.Config, sqrt: real -> real, s: System, f: nat) returns (s': System)
    requires Inv(cfg, s) && f < |s.flows|
    requires |s.flows[f].ring| == |s.flows[f].occupant| == RING
    requires FlowWork(SenderStep(s.flows[f], f, Choice(true, 0))) < FlowWork(s.flows[f])
    ensures Steps(cfg, sqrt, s, s') && Work(s') < Work(s) && s'.poller == s.poller
  {
    hide FlowWork, FlowInv, Tracked;
    var ch := Choice(true, 0);
    s' := SetFlow(s, f, SenderStep(s.flows[f], f, ch));
    assert Next(cfg, sqrt, s, Sender(f, ch), s');
    WorkUpdate(s.flows, f, SenderStep(s.flows[f], f, ch));
    assert Pending(s') == Pending(s);
  }

  /** A sender that is past its post and before its mark can always take the next of the three statements. */
  lemma MidPostHelps(cfg: CC.Config, fl: Flow, view: View, f: nat)
    requires FlowInv(cfg, fl, view) && f < 256 && fl.pc.Posting? && fl.pc.step != ToPost
    ensures FlowWork(SenderStep(fl, f, Choice(true, 0))) < FlowWork(fl)
  {
    hide CC.ValidState, SlotsHeld, SlotsDistinct, StampsKept, PostedInOrder;
  }

  lemma QuietHelps(cfg: CC.Config, fl: Flow, f: nat)
    requires FlowInv(cfg, fl, Elsewhere) && Quiet(fl) && f < 256 && fl.pc != Done
    ensures FlowWork(SenderStep(fl, f, Choice(true, 0))) < FlowWork(fl)
  {
    hide FlowInv, SenderStep;
    RingSizes(cfg, fl, Elsewhere);
    QuietSenderAdvances(cfg, fl, f, Choice(true, 0));
    SenderFrame(fl, f, Choice(true, 0));
    assert AboutToPost(fl) ==> SenderRank(fl.pc) == 5;
  }

  /** Inside a batch: either the poller moves on, or it waits for a sender that is about to mark the slot. */
  lemma BatchHelps(cfg: CC.Config, sqrt: real -> real, s: System) returns (s': System)
    requires CC.ValidConfig(cfg, sqrt) && Inv(cfg, s) && s.poller.Busy?
    ensures Steps(cfg, sqrt, s, s') && Work(s') < Work(s) && !s'.poller.Failed?
  {
    hide FlowInv, Tracked, CC.ValidConfig, CC.Updated, CC.Settled, CC.ValidState, Inv, FlowWork;
    HeadView(cfg, s);
    var f, q, fl := CurFlow(s), CurSeq(s), s.flows[CurFlow(s)];
    match s.poller.stage
    case Waiting =>
      if fl.ring[Ix(q)].free {
        WaitsForSender(cfg, fl, q);
        MidPostHelps(cfg, fl, Handling(q, Waiting), f);
        RingSizes(cfg, fl, Handling(q, Waiting));
        s' := SenderHelps(cfg, sqrt, s, f);
      } else {
        s' := SetStage(s, ToCredit);
        assert Next(cfg, sqrt, s, ObserveBusy, s');
        StageWork(s, fl, ToCredit);
      }
    case ToCredit =>
      s' := SetStage(SetFlow(s, f, Credit(fl, q)), ToRtt);
      assert Next(cfg, sqrt, s, CreditBack, s');
      StageWork(s, Credit(fl, q), ToRtt);
    case ToRtt =>
      s' := SetStage(s, ToUpdate(Rtt(0, fl.ring[Ix(q)].stamp)));
      assert Next(cfg, sqrt, s, MeasureRtt(0), s');
      StageWork(s, fl, s'.poller.stage);
    case ToUpdate(rtt) =>
      ValidWhenUpdating(cfg, fl, q, rtt);
      s' := SetStage(SetFlow(s, f, WithUpdate(cfg, sqrt, fl, rtt, 0)), ToClamp);
      assert Next(cfg, sqrt, s, UpdateWindow(0), s');
      StageWork(s, WithUpdate(cfg, sqrt, fl, rtt, 0), ToClamp);
    case ToClamp =>
      s' := SetStage(SetFlow(s, f, fl.(cc := CC.Settled(fl.cc, 0))), ToFree);
      assert Next(cfg, sqrt, s, ClampWindow(0), s');
      StageWork(s, fl.(cc := CC.Settled(fl.cc, 0)), ToFree);
    case ToFree =>
      s' := FreeHelps(cfg, sqrt, s);
  }

  lemma ValidWhenUpdating(cfg: CC.Config, fl: Flow, q: nat, rtt: nat)
    requires FlowInv(cfg, fl, Handling(q, ToUpdate(rtt)))
    ensures CC.ValidState(cfg, fl.cc)
  {
    hide CC.ValidState;
  }

  /** A completed segment whose slot is still free: its sender has posted it and not yet marked it. */
  lemma WaitsForSender(cfg: CC.Config, fl: Flow, q: nat)
    requires FlowInv(cfg, fl, Handling(q, Waiting)) && fl.ring[Ix(q)].free
    ensures fl.pc.Posting? && fl.pc.step != ToPost
  {
    hide CC.ValidState, SlotsDistinct, StampsKept, PostedInOrder;
    assert q < Posted(fl) && q !in fl.freed;
    assert q >= Marked(fl);
  }

  lemma StageWork(s: System, fl: Flow, stage: Stage)
    requires InBatch(s)
    requires var o := s.flows[CurFlow(s)];
             fl.iters == o.iters && fl.arrived == o.arrived && fl.pc == o.pc && fl.nextSeq == o.nextSeq
    requires PollerRank(s.poller.(stage := stage)) < PollerRank(s.poller)
    ensures Work(SetStage(SetFlow(s, CurFlow(s), fl), stage)) < Work(s)
    ensures fl == s.flows[CurFlow(s)] ==> SetFlow(s, CurFlow(s), fl) == s
  {
    WorkUpdate(s.flows, CurFlow(s), fl);
    assert Pending(SetStage(SetFlow(s, CurFlow(s), fl), stage)) == Pending(s);
  }

  lemma FreeHelps(cfg: CC.Config, sqrt: real -> real, s: System) returns (s': System)
    requires Inv(cfg, s) && InBatch(s) && s.poller.stage == ToFree
    ensures Steps(cfg, sqrt, s, s') && Work(s') < Work(s) && !s'.poller.Failed?
  {
    hide FlowInv, Tracked, FlowsInv;
    var fl := Free(s.flows[CurFlow(s)], CurSeq(s));
    s' := SetFlow(s, CurFlow(s), fl).(
      poller := AfterFree(s.poller),
      countdown := s.countdown - if AfterFree(s.poller) == Idle then |s.poller.wc| else 0);
    assert Next(cfg, sqrt, s, FreeSlot, s');
    WorkUpdate(s.flows, CurFlow(s), fl);
    assert Pending(s') == Pending(s)[1..];
  }

  /** The poller is between batches, nothing is queued: a segment on the wire can complete. */
  lemma ArrivalHelps(cfg: CC.Config, sqrt: real -> real, s: System, f: nat, q: nat) returns (s': System)
    requires Inv(cfg, s) && f < |s.flows| && q < Posted(s.flows[f]) && q !in s.flows[f].arrived
    ensures Steps(cfg, sqrt, s, s') && Work(s') < Work(s) && s'.poller == s.poller
  {
    hide FlowInv, Tracked, FlowsInv;
    s' := SetFlow(s, f, Complete(s.flows[f], q)).(cq := s.cq + [Pack(f, q)]);
    assert Next(cfg, sqrt, s, CardCompletes(f, q), s');
    WorkUpdate(s.flows, f, Complete(s.flows[f], q));
    assert Pending(s') == Pending(s) + [Pack(f, q)];
  }

  /** Nothing pending: whatever a flow has seen complete has been freed. */
  lemma NothingPending(cfg: CC.Config, s: System, f: nat)
    requires Inv(cfg, s) && Pending(s) == [] && f < |s.flows| && !s.poller.Busy?
    ensures FlowInv(cfg, s.flows[f], Elsewhere)
    ensures s.flows[f].arrived == s.flows[f].freed
  {
    hide FlowInv;
    var fl := s.flows[f];
    assert FlowInv(cfg, fl, ViewOf(s.poller, f));
    FlowBounds(cfg, fl, Elsewhere);
    forall q | q in fl.arrived ensures q in fl.freed {
      IdOf(Pack(f, q), f, q);
      assert !Outstanding(s.flows, Pack(f, q)) by {
        assert Pack(f, q) !in Pending(s);
      }
    }
  }

  lemma {:induction false} SomeMissing(s: set<nat>, n: nat) returns (q: nat)
    requires Below(s, n) && |s| < n
    ensures q < n && q !in s
  {
    if n - 1 !in s {
      q := n - 1;
    } else {
      q := SomeMissing(s - {n - 1}, n - 1);
    }
  }

  /** Between batches with an empty queue: a completion is on its way, or a quiet sender has something to do. */
  lemma IdleHelps(cfg: CC.Config, sqrt: real -> real, s: System, f: nat) returns (s': System)
    requires Inv(cfg, s) && Pending(s) == [] && !s.poller.Busy? && f < |s.flows|
    requires s.flows[f].pc != Done || |s.flows[f].freed| < Posted(s.flows[f])
    ensures Steps(cfg, sqrt, s, s') && Work(s') < Work(s) && s'.poller == s.poller
  {
    hide FlowInv, Inv, FlowWork, SenderStep;
    NothingPending(cfg, s, f);
    var fl := s.flows[f];
    FlowBounds(cfg, fl, Elsewhere);
    BelowFits(fl.freed, Posted(fl));
    assert f < 256 by {
      FewFlows(cfg, s);
    }
    if |fl.arrived| < Posted(fl) {
      var q := SomeMissing(fl.arrived, Posted(fl));
      s' := ArrivalHelps(cfg, sqrt, s, f, q);
    } else {
      RingSizes(cfg, fl, Elsewhere);
      QuietHelps(cfg, fl, f);
      s' := SenderHelps(cfg, sqrt, s, f);
    }
  }

  lemma FewFlows(cfg: CC.Config, s: System)
    requires Inv(cfg, s)
    ensures |s.flows| <= 256
  {
  }

  /** In every state that is not final some step brings the end nearer, unless the poller has returned an error. */
  lemma SomeStepHelps(cfg: CC.Config, sqrt: real -> real, s: System) returns (s': System)
    requires CC.ValidConfig(cfg, sqrt) && Inv(cfg, s) && !s.poller.Failed? && !AllDone(s)
    ensures Steps(cfg, sqrt, s, s') && Work(s') < Work(s) && !s'.poller.Failed?
  {
    hide FlowInv, FlowWork, Tracked, CC.ValidConfig, CC.IsSqrt, Unfreed, FullyDelivered;
    if s.poller.Busy? {
      s' := BatchHelps(cfg, sqrt, s);
    } else if s.poller == Idle && s.cq != [] && s.countdown != 0 {
      s' := s.(cq := s.cq[1..], poller := Busy(s.cq[..1], 0, Waiting));
      assert Next(cfg, sqrt, s, Poll(1), s');
      assert Pending(s') == s.cq[..1] + s.cq[1..] == Pending(s);
    } else {
      QueueIsEmpty(cfg, s);
      if f :| 0 <= f < |s.flows| && (s.flows[f].pc != Done || |s.flows[f].freed| < Posted(s.flows[f])) {
        s' := IdleHelps(cfg, sqrt, s, f);
      } else {
        EverythingDelivered(cfg, s);
        s' := s.(poller := Finished);
        assert s.poller == Idle && Next(cfg, sqrt, s, ReturnDone, s');
        assert Pending(s') == Pending(s);
      }
    }
  }

  /** When the countdown is zero nothing is left in the queue. */
  lemma QueueIsEmpty(cfg: CC.Config, s: System)
    requires Inv(cfg, s) && (s.poller == Finished || (s.poller == Idle && (s.cq == [] || s.countdown == 0)))
    ensures Pending(s) == []
  {
    hide FlowInv;
    if s.cq != [] {
      UnfreedZero(cfg, s.flows, s.poller);
      HeadOutstanding(s.flows, Pending(s));
      var w := Pending(s)[0];
      var f := UnpackFlow(w);
      assert FlowInv(cfg, s.flows[f], ViewOf(s.poller, f));
      OutstandingIsUnfreed(cfg, s.flows[f], ViewOf(s.poller, f), UnpackSeq(w));
    }
  }

  lemma OutstandingIsUnfreed(cfg: CC.Config, fl: Flow, view: View, q: nat)
    requires FlowInv(cfg, fl, view) && q in fl.arrived && q !in fl.freed
    ensures |fl.freed| < fl.iters
  {
    hide CC.ValidState;
    FlowBounds(cfg, fl, view);
    BelowFits(fl.freed + {q}, fl.iters);
  }

  lemma {:induction false} AllFreed(flows: seq<Flow>)
    requires forall f :: 0 <= f < |flows| ==> |flows[f].freed| == flows[f].iters
    ensures Unfreed(flows) == 0
  {
    if flows != [] {
      AllFreed(flows[..|flows| - 1]);
    }
  }

  lemma EverythingDelivered(cfg: CC.Config, s: System)
    requires Inv(cfg, s) && (s.poller == Idle || s.poller == Finished)
    requires forall f :: 0 <= f < |s.flows| ==> s.flows[f].pc == Done && |s.flows[f].freed| >= Posted(s.flows[f])
    ensures s.poller == Idle ==> s.countdown == 0
    ensures s.poller == Finished ==> AllDone(s)
  {
    hide FlowInv, FullyDelivered, Tracked;
    forall f | 0 <= f < |s.flows| ensures |s.flows[f].freed| == s.flows[f].iters && FullyDelivered(s.flows[f]) {
      assert FlowInv(cfg, s.flows[f], ViewOf(s.poller, f));
      DoneMeansPosted(cfg, s.flows[f]);
      FreedFits(cfg, s.flows[f], Elsewhere);
    }
    AllFreed(s.flows);
  }

  lemma DoneMeansPosted(cfg: CC.Config, fl: Flow)
    requires FlowInv(cfg, fl, Elsewhere) && fl.pc == Done
    ensures Posted(fl) == fl.iters
  {
  }

  /** A continuation of `s` in which every step is a step of the client or the card. */
  ghost predicate Continues(cfg: CC.Config, sqrt: real -> real, s: System, path: seq<System>) {
    path != [] && path[0] == s && forall i :: 0 <= i < |path| - 1 ==> Steps(cfg, sqrt, path[i], path[i + 1])
  }

  /**
   * No interleaving can paint the client into a corner: from every state of every run, unless the poller
   * has returned an error, the run can go on to where every sender and the poller have returned and every
   * segment has been posted, credited and freed.
   */
  lemma {:induction false} CanFinish(cfg: CC.Config, sqrt: real -> real, s: System) returns (path: seq<System>)
    requires CC.ValidConfig(cfg, sqrt) && Inv(cfg, s) && !s.poller.Failed?
    ensures Continues(cfg, sqrt, s, path) && AllDone(path[|path| - 1])
    decreases Work(s)
  {
    hide Inv, Work, Steps, Next, CC.ValidConfig, CC.IsSqrt, AllDone;
    if AllDone(s) {
      path := [s];
    } else {
      var s' := SomeStepHelps(cfg, sqrt, s);
      assert Inv(cfg, s') by {
        StepsKeepInv(cfg, sqrt, s, s');
      }
      assert Work(s) >= 0 by {
        WorkIsNat(cfg, s);
      }
      var rest := CanFinish(cfg, sqrt, s');
      path := [s] + rest;
      assert forall i :: 0 < i < |path| ==> path[i] == rest[i - 1];
    }
  }

  lemma StepsKeepInv(cfg: CC.Config, sqrt: real -> real, s: System, s': System)
    requires Inv(cfg, s) && Steps(cfg, sqrt, s, s')
    ensures Inv(cfg, s')
  {
    hide Inv, Next;
    var step :| Next(cfg, sqrt, s, step, s');
    NextKeepsInv(cfg, sqrt, s, step, s');
  }

  lemma WorkIsNat(cfg: CC.Config, s: System)
    requires Inv(cfg, s)
    ensures Work(s) >= 0
  {
    WorkNonNegative(cfg, s.flows, s.poller);
  }

  lemma EveryRunCanFinish(cfg: CC.Config, sqrt: real -> real, run: seq<System>) returns (path: seq<System>)
    requires CC.ValidConfig(cfg, sqrt) && IsRun(cfg, sqrt, run) && !run[|run| - 1].poller.Failed?
    ensures Continues(cfg, sqrt, run[|run| - 1], path) && AllDone(path[|path| - 1])
  {
    hide Inv, CC.ValidConfig, Continues, AllDone;
    RunInv(cfg, sqrt, run);
    path := CanFinish(cfg, sqrt, run[|run| - 1]);
  }
}
