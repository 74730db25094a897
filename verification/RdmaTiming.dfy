/** What the client measures: stamps come from the clock reading of a batch, and samples from stamps. */
module RdmaTiming {
  import opened Wrappers
  import opened RdmaFlow
  import opened RdmaProtocol
  import opened RdmaRuns
  import opened RdmaFairness
  import CC = CongestionControl

  // ---------------------------------------------------------------- the size of a batch

  ghost predicate SlotIsFree(ring: seq<Slot>, q: nat)
    requires |ring| == 64
  {
    ring[q % 64].free
  }

  ghost predicate AllFree(ring: seq<Slot>, first: nat, end: nat)
    requires |ring| == 64
  {
    forall q: nat :: first <= q < end ==> SlotIsFree(ring, q)
  }

  /** With the window and the counter just compared, a batch takes as many segments as it can, and no more. */
  ghost predicate Maximal(fl: Flow, w: real, count: nat)
    requires |fl.ring| == 64
  {
    && fl.nextSeq + count <= fl.iters
    && AllFree(fl.ring, fl.nextSeq, fl.nextSeq + count)
    && if w < 1.0 then count <= 1 && (count == 0 ==> !SlotIsFree(fl.ring, fl.nextSeq))
       else
         && count as real <= w - fl.inflight as real
         && (count as real + 1.0 > w - fl.inflight as real
             || fl.nextSeq + count == fl.iters || !SlotIsFree(fl.ring, fl.nextSeq + count))
  }

  /** Where a pass of the sender comes to if nobody else moves: a batch that is maximal, or none if that is empty. */
  lemma BatchIsMaximal(cfg: CC.Config, fl: Flow, view: View, f: nat, ch: Choice) returns (steps: nat, count: nat)
    requires FlowInv(cfg, fl, view) && f < 256 && fl.pc.HasWindow? && |fl.ring| == 64
    ensures fl.pc.w <= fl.inflight as real ==> count == 0
    ensures fl.pc.w > fl.inflight as real ==> Maximal(fl, fl.pc.w, count)
    ensures SenderAlone(fl, f, ch, steps)
            == fl.(pc := if count == 0 then LoopTop else Posting(count, 0, ToPost, ch.clock))
  {
    hide ControllerSound, SlotsHeld, SlotsDistinct, StampsKept, PostedInOrder, ViewSound, Below;
    var w := fl.pc.w;
    InflightNonNegative(cfg, fl, view);
    if w <= fl.inflight as real {
      steps, count := 1, 0;
      assert SenderAlone(fl, f, ch, 1) == SenderAlone(SenderStep(fl, f, ch), f, ch, 0);
    } else if w < 1.0 {
      steps, count := 2, if fl.ring[Ix(fl.nextSeq)].free then 1 else 0;
      var fl1 := SenderStep(fl, f, ch);
      assert SenderAlone(fl1, f, ch, 1) == SenderAlone(SenderStep(fl1, f, ch), f, ch, 0);
      assert SenderAlone(fl, f, ch, 2) == SenderAlone(fl1, f, ch, 1);
    } else {
      var fl1 := SenderStep(fl, f, ch);
      var fl2 := SenderStep(fl1, f, ch);
      var room := Truncate(w - fl.inflight as real);
      RoomIsFloor(w - fl.inflight as real);
      var more;
      more, count := ScanToEnd(fl2, f, ch);
      assert SenderAlone(fl1, f, ch, more + 1) == SenderAlone(fl2, f, ch, more);
      steps := more + 2;
    }
  }

  lemma RoomIsFloor(x: real)
    requires x > 0.0
    ensures Truncate(x) as real <= x < Truncate(x) as real + 1.0
  {
  }

  /** The scan stops at the first busy slot or when the allowance is used up. */
  lemma {:induction false} ScanToEnd(fl: Flow, f: nat, ch: Choice) returns (steps: nat, count: nat)
    requires f < 256 && |fl.ring| == |fl.occupant| == 64 && fl.pc.Scanning? && fl.pc.i <= fl.pc.allow
    requires AllFree(fl.ring, fl.nextSeq, fl.nextSeq + fl.pc.i)
    ensures fl.pc.i <= count <= fl.pc.allow
    ensures AllFree(fl.ring, fl.nextSeq, fl.nextSeq + count)
    ensures count == fl.pc.allow || !SlotIsFree(fl.ring, fl.nextSeq + count)
    ensures SenderAlone(fl, f, ch, steps)
            == fl.(pc := if count == 0 then LoopTop else Posting(count, 0, ToPost, ch.clock))
    decreases fl.pc.allow - fl.pc.i
  {
    var Scanning(allow, i) := fl.pc;
    ScanIndex(i, fl.nextSeq);
    var fl1 := SenderStep(fl, f, ch);
    if i < allow && SlotIsFree(fl.ring, fl.nextSeq + i) {
      steps, count := ScanToEnd(fl1, f, ch);
      steps := steps + 1;
    } else {
      steps, count := 1, i;
      assert SenderAlone(fl, f, ch, 1) == SenderAlone(fl1, f, ch, 0);
    }
  }

  // ---------------------------------------------------------------- where stamps come from

  /** Step k of the run is the one in which the sender of the flow begins to post `count` segments from `first` on. */
  ghost predicate BatchStarts(run: Run, sched: Schedule, f: nat, k: nat, first: nat, count: nat) {
    && IsTurnOf(sched(k), f) && f < |run(k).flows| && f < |run(k + 1).flows|
    && !run(k).flows[f].pc.Posting? && run(k).flows[f].nextSeq == first
    && run(k + 1).flows[f].pc.Posting? && run(k + 1).flows[f].pc.n == count
  }

  /** The stamp is the clock reading of the segment's batch, and 1308 for each earlier segment of that batch. */
  ghost predicate StampOf(run: Run, sched: Schedule, f: nat, q: nat, stamp: nat, k: nat, first: nat, count: nat) {
    && BatchStarts(run, sched, f, k, first, count) && first <= q < first + count
    && stamp == sched(k).value.ch.clock + 1308 * (q - first)
  }

  ghost predicate StampedBefore(run: Run, sched: Schedule, f: nat, q: nat, stamp: nat, n: nat) {
    exists k: nat, first: nat, count: nat :: k < n && StampOf(run, sched, f, q, stamp, k, first, count)
  }

  /** A sender in the middle of a batch holds the reading that it took at the start of the batch. */
  ghost predicate BatchBefore(run: Run, sched: Schedule, f: nat, fl: Flow, n: nat) {
    fl.pc.Posting? ==>
      exists k: nat ::
        k < n && BatchStarts(run, sched, f, k, fl.nextSeq, fl.pc.n) && fl.pc.clock == sched(k).value.ch.clock
  }

  ghost predicate AllStamped(run: Run, sched: Schedule, f: nat, n: nat) {
    && f < |run(n).flows| && BatchBefore(run, sched, f, run(n).flows[f], n)
    && forall q: nat :: q < |run(n).flows[f].stamps| ==> StampedBefore(run, sched, f, q, run(n).flows[f].stamps[q], n)
  }

  /** What is posted and how is the sender's own business. */
  lemma OthersKeepPosts(cfg: CC.Config, sqrt: real -> real, s: System, a: Option<Step>, s': System, f: nat)
    requires Moves(cfg, sqrt, s, a, s') && f < |s.flows| && !IsTurnOf(a, f)
    ensures f < |s'.flows|
    ensures var fl, fl' := s.flows[f], s'.flows[f];
            fl'.stamps == fl.stamps && fl'.pc == fl.pc && fl'.nextSeq == fl.nextSeq
  {
    hide SenderStep, CC.Updated, CC.Settled, CC.ValidConfig, CC.ValidState;
  }

  /** How a step of the sender extends the stamps and moves through a batch. */
  lemma SenderPostsStep(cfg: CC.Config, fl: Flow, view: View, f: nat, ch: Choice)
    requires FlowInv(cfg, fl, view) && f < 256
    ensures var fl' := SenderStep(fl, f, ch);
            && (fl.pc.Posting? && fl'.pc.Posting? ==>
                  fl'.pc.n == fl.pc.n && fl'.pc.clock == fl.pc.clock && fl'.nextSeq == fl.nextSeq)
            && (!fl.pc.Posting? && fl'.pc.Posting? ==> fl'.pc.clock == ch.clock && fl'.nextSeq == fl.nextSeq)
            && if fl.pc.Posting? && fl.pc.step == ToStamp then
                 && fl.pc.i < fl.pc.n && |fl.stamps| == fl.nextSeq + fl.pc.i
                 && fl'.stamps == fl.stamps + [fl.pc.clock + 1308 * fl.pc.i]
               else fl'.stamps == fl.stamps
  {
    hide ControllerSound, SlotsHeld, SlotsDistinct, StampsKept, PostedInOrder, ViewSound, Below, FreeAhead;
  }

  lemma {:induction false} StampsAreReadings(cfg: CC.Config, sqrt: real -> real, run: Run, sched: Schedule, f: nat,
                                             n: nat)
    requires RunsFor(cfg, sqrt, run, sched, n) && f < |run(0).flows|
    ensures AllStamped(run, sched, f, n)
  {
    hide Inv, Init, Next, Moves, BatchStarts, StampOf;
    RunKeepsInv(cfg, sqrt, run, sched, n);
    if n == 0 {
      NothingPostedYet(run(0), f);
    } else {
      StampsAreReadings(cfg, sqrt, run, sched, f, n - 1);
      RunKeepsInv(cfg, sqrt, run, sched, n - 1);
      assert Moves(cfg, sqrt, run(n - 1), sched(n - 1), run(n - 1 + 1));
      if IsTurnOf(sched(n - 1), f) {
        StampsAfterTurn(cfg, sqrt, run, sched, f, n - 1);
      } else {
        OthersKeepPosts(cfg, sqrt, run(n - 1), sched(n - 1), run(n), f);
        StillStamped(run, sched, f, n - 1, run(n));
      }
    }
  }

  lemma NothingPostedYet(s: System, f: nat)
    requires Init(s) && f < |s.flows|
    ensures s.flows[f].stamps == [] && !s.flows[f].pc.Posting?
  {
    assert InitFlow(s.flows[f]);
  }

  lemma StillStamped(run: Run, sched: Schedule, f: nat, n: nat, s: System)
    requires AllStamped(run, sched, f, n) && s == run(n + 1) && f < |s.flows|
    requires s.flows[f].stamps == run(n).flows[f].stamps && s.flows[f].pc == run(n).flows[f].pc
    requires s.flows[f].nextSeq == run(n).flows[f].nextSeq
    ensures AllStamped(run, sched, f, n + 1)
  {
    hide BatchStarts, StampOf;
    var fl := s.flows[f];
    forall q: nat | q < |fl.stamps| ensures StampedBefore(run, sched, f, q, fl.stamps[q], n + 1) {
      assert StampedBefore(run, sched, f, q, fl.stamps[q], n);
    }
  }

  lemma StampsAfterTurn(cfg: CC.Config, sqrt: real -> real, run: Run, sched: Schedule, f: nat, n: nat)
    requires Inv(cfg, run(n)) && AllStamped(run, sched, f, n) && IsTurnOf(sched(n), f)
    requires Moves(cfg, sqrt, run(n), sched(n), run(n + 1))
    ensures AllStamped(run, sched, f, n + 1)
  {
    hide FlowInv, SenderStep, Tracked;
    var fl, fl', ch := run(n).flows[f], run(n + 1).flows[f], sched(n).value.ch;
    assert FlowInv(cfg, fl, ViewOf(run(n).poller, f));
    SenderPostsStep(cfg, fl, ViewOf(run(n).poller, f), f, ch);
    if fl'.pc.Posting? && !fl.pc.Posting? {
      assert BatchStarts(run, sched, f, n, fl.nextSeq, fl'.pc.n);
    }
    forall q: nat | q < |fl'.stamps| ensures StampedBefore(run, sched, f, q, fl'.stamps[q], n + 1) {
      if q < |fl.stamps| {
        assert StampedBefore(run, sched, f, q, fl.stamps[q], n);
      } else {
        var k: nat :| k < n && BatchStarts(run, sched, f, k, fl.nextSeq, fl.pc.n)
                      && fl.pc.clock == sched(k).value.ch.clock;
        assert StampOf(run, sched, f, q, fl'.stamps[q], k, fl.nextSeq, fl.pc.n);
      }
    }
  }

  // ---------------------------------------------------------------- what the poller makes of them

  /** The nanoseconds from the stamp to the completion, in a 64-bit word. */
  ghost predicate IsElapsed(stamp: nat, completion: nat, ns: nat) {
    && ns < 0x1_0000_0000_0000_0000
    && (ns + stamp - completion) % 0x1_0000_0000_0000_0000 == 0
    && (stamp <= completion < stamp + 0x1_0000_0000_0000_0000 ==> ns + stamp == completion)
  }

  lemma RttIsElapsed(stamp: nat, completion: nat)
    ensures IsElapsed(stamp, completion, Rtt(completion, stamp))
  {
    var d, w := completion - stamp, 0x1_0000_0000_0000_0000;
    var k := d / w;
    assert d == w * k + d % w;
    assert Rtt(completion, stamp) + stamp - completion == w * -k;
    MultipleOfWord(-k);
  }

  lemma MultipleOfWord(k: int)
    ensures (0x1_0000_0000_0000_0000 * k) % 0x1_0000_0000_0000_0000 == 0
  {
  }

  /** The RTT that is measured is the time from the stamp of that very segment to its completion. */
  lemma MeasuresElapsed(cfg: CC.Config, sqrt: real -> real, s: System, completion: nat, s': System)
    requires Inv(cfg, s) && Next(cfg, sqrt, s, MeasureRtt(completion), s')
    ensures var f, q := CurFlow(s), CurSeq(s);
            && q < |s.flows[f].stamps| && s'.poller.Busy? && s'.poller.stage.ToUpdate?
            && IsElapsed(s.flows[f].stamps[q], completion, s'.poller.stage.rttNs)
  {
    hide FlowInv, Inv, Rtt, IsElapsed;
    HeadView(cfg, s);
    var f, q := CurFlow(s), CurSeq(s);
    RttKeepsInv(cfg, s.flows[f], q, completion);
    RttIsElapsed(s.flows[f].stamps[q], completion);
  }


  ghost predicate HandlesSegment(s: System, f: nat, q: nat) {
    InBatch(s) && CurFlow(s) == f && CurSeq(s) == q && q < |s.flows[f].stamps|
  }

  /** Step m measured `ns` nanoseconds for segment q of the flow, from the given stamp to the given completion. */
  ghost predicate MeasuredAt(run: Run, sched: Schedule, f: nat, q: nat, m: nat, completion: nat, stamp: nat, ns: nat) {
    && sched(m) == Some(MeasureRtt(completion)) && HandlesSegment(run(m), f, q)
    && IsElapsed(stamp, completion, ns)
  }

  ghost predicate MeasuredBefore(run: Run, sched: Schedule, f: nat, q: nat, stamp: nat, ns: nat, n: nat) {
    exists m: nat, completion: nat :: m < n && MeasuredAt(run, sched, f, q, m, completion, stamp, ns)
  }

  /** A poller about to update holds what was measured for the segment that it handles. */
  ghost predicate SampleHeld(run: Run, sched: Schedule, n: nat) {
    var s := run(n);
    InBatch(s) && s.poller.stage.ToUpdate? ==>
      var f, q := CurFlow(s), CurSeq(s);
      HandlesSegment(s, f, q) && MeasuredBefore(run, sched, f, q, s.flows[f].stamps[q], s.poller.stage.rttNs, n)
  }

  /** Only a measurement brings the poller to the stage before the update, and stamps are never changed. */
  lemma OnlyMeasuring(cfg: CC.Config, sqrt: real -> real, s: System, a: Option<Step>, s': System)
    requires Inv(cfg, s) && Moves(cfg, sqrt, s, a, s') && InBatch(s') && s'.poller.stage.ToUpdate?
    ensures (a.Some? && a.value.MeasureRtt?) || s'.poller == s.poller
    ensures |s'.flows| == |s.flows| && CurFlow(s') < |s.flows|
    ensures s.flows[CurFlow(s')].stamps <= s'.flows[CurFlow(s')].stamps
    ensures a.Some? && a.value.MeasureRtt? ==>
              InBatch(s) && CurFlow(s) == CurFlow(s') && CurSeq(s) == CurSeq(s') && s'.flows == s.flows
  {
    hide FlowInv, SenderStep, Tracked, CC.Updated, CC.Settled, CC.ValidConfig, CC.ValidState, Inv;
    var f := CurFlow(s');
    if a.Some? && a.value.Sender? {
      SenderIsFlow(cfg, sqrt, s, a.value.f, a.value.ch, s');
      FlowAt(cfg, s, f);
      if a.value.f == f {
        SenderPostsStep(cfg, s.flows[f], ViewOf(s.poller, f), f, a.value.ch);
      }
    }
  }

  lemma FlowAt(cfg: CC.Config, s: System, f: nat)
    requires Inv(cfg, s) && f < |s.flows|
    ensures FlowInv(cfg, s.flows[f], ViewOf(s.poller, f)) && f < 256
  {
    hide FlowInv;
    assert FlowInv(cfg, s.flows[f], ViewOf(s.poller, f));
  }

  lemma {:induction false} SamplesAreHeld(cfg: CC.Config, sqrt: real -> real, run: Run, sched: Schedule, n: nat)
    requires RunsFor(cfg, sqrt, run, sched, n)
    ensures SampleHeld(run, sched, n)
  {
    hide Inv, Init, Next, Moves, InBatch, IsElapsed;
    if n == 0 {
      InitIsIdle(run(0));
      IdleIsNotInBatch(run(0));
    } else {
      SamplesAreHeld(cfg, sqrt, run, sched, n - 1);
      RunKeepsInv(cfg, sqrt, run, sched, n - 1);
      assert Moves(cfg, sqrt, run(n - 1), sched(n - 1), run(n - 1 + 1));
      SampleAfterStep(cfg, sqrt, run, sched, n - 1);
    }
  }

  lemma IdleIsNotInBatch(s: System)
    requires s.poller == Idle
    ensures !InBatch(s)
  {
  }

  lemma SampleAfterStep(cfg: CC.Config, sqrt: real -> real, run: Run, sched: Schedule, n: nat)
    requires Inv(cfg, run(n)) && SampleHeld(run, sched, n) && Moves(cfg, sqrt, run(n), sched(n), run(n + 1))
    ensures SampleHeld(run, sched, n + 1)
  {
    hide Inv, Next, IsElapsed;
    var s, s' := run(n), run(n + 1);
    if !InBatch(s') || !s'.poller.stage.ToUpdate? {
      return;
    }
    OnlyMeasuring(cfg, sqrt, s, sched(n), s');
    var f, q := CurFlow(s'), CurSeq(s');
    if sched(n).Some? && sched(n).value.MeasureRtt? {
      MeasuresElapsed(cfg, sqrt, s, sched(n).value.cqeTime, s');
      assert MeasuredAt(run, sched, f, q, n, sched(n).value.cqeTime, s'.flows[f].stamps[q], s'.poller.stage.rttNs);
    } else {
      RingsHaveSize(cfg, s);
      var m: nat, completion: nat :| m < n
        && MeasuredAt(run, sched, f, q, m, completion, s.flows[f].stamps[q], s.poller.stage.rttNs);
      assert s'.flows[f].stamps[q] == s.flows[f].stamps[q];
      assert MeasuredAt(run, sched, f, q, m, completion, s'.flows[f].stamps[q], s'.poller.stage.rttNs);
    }
  }

  /**
   * Every sample that any controller is given, in any run: it is the time from the clock reading of the batch
   * that posted the segment, plus 1308 nanoseconds for each segment posted earlier in that batch, to the
   * completion of that segment, in microseconds.
   */
  lemma EverySampleIsElapsed(cfg: CC.Config, sqrt: real -> real, run: Run, sched: Schedule, n: nat, t1: nat)
    returns (m: nat, k: nat, completion: nat, stamp: nat, ns: nat, sample: real)
    requires RunsFor(cfg, sqrt, run, sched, n + 1) && sched(n) == Some(UpdateWindow(t1))
    ensures InBatch(run(n)) && k < n && m < n
    ensures var f, q := CurFlow(run(n)), CurSeq(run(n));
            && MeasuredAt(run, sched, f, q, m, completion, stamp, ns)
            && (exists first: nat, count: nat :: StampOf(run, sched, f, q, stamp, k, first, count))
            && 1000.0 * sample == ns as real
            && f < |run(n + 1).flows| && CC.ValidConfig(cfg, sqrt) && CC.ValidState(cfg, run(n).flows[f].cc)
            && run(n + 1).flows[f].cc == CC.Updated(cfg, sqrt, run(n).flows[f].cc, sample, t1)
  {
    hide Inv, Init, IsElapsed, StampOf, CC.Updated, CC.ValidConfig, CC.ValidState;
    assert Moves(cfg, sqrt, run(n), sched(n), run(n + 1));
    assert RunsFor(cfg, sqrt, run, sched, n);
    SamplesAreHeld(cfg, sqrt, run, sched, n);
    var s := run(n);
    var f, q := CurFlow(s), CurSeq(s);
    ns, stamp := s.poller.stage.rttNs, s.flows[f].stamps[q];
    m, completion :| m < n && MeasuredAt(run, sched, f, q, m, completion, stamp, ns);
    RunKeepsInv(cfg, sqrt, run, sched, n);
    StampsAreReadings(cfg, sqrt, run, sched, f, n);
    assert StampedBefore(run, sched, f, q, stamp, n);
    var first: nat, count: nat;
    k, first, count :| k < n && StampOf(run, sched, f, q, stamp, k, first, count);
    sample := ns as real / 1000.0;
  }
}
