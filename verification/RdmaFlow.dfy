/**
 * One flow of the windowed RDMA client: the sender thread's micro-steps, what the completion
 * poller does to the flow, and the invariant that every one of these steps keeps.
 */
module RdmaFlow {
  import CC = CongestionControl

  const RING: nat := 64
  const WR_GAP: nat := 1308
  const SEQ_LIMIT: nat := 0x100_0000_0000_0000
  const WORD: int := 0x1_0000_0000_0000_0000

  // ---------------------------------------------------------------- work request ids

  /** The id that a posted segment carries: the flow above 56 bits of sequence number. */
  function Pack(flow: nat, seqNo: nat): nat
    requires flow < 256
  {
    flow * SEQ_LIMIT + if seqNo >= SEQ_LIMIT then seqNo % RING else seqNo
  }

  function UnpackFlow(wrId: nat): nat { wrId / SEQ_LIMIT }

  function UnpackSeq(wrId: nat): nat { wrId % SEQ_LIMIT }

  /** Packing loses nothing, fits a 64-bit word, and leaves the ring slot of the sequence number unchanged. */
  lemma PackFacts(flow: nat, seqNo: nat)
    requires flow < 256 && seqNo < SEQ_LIMIT
    ensures UnpackFlow(Pack(flow, seqNo)) == flow && UnpackSeq(Pack(flow, seqNo)) == seqNo
    ensures Pack(flow, seqNo) % RING == Ix(seqNo)
    ensures Pack(flow, seqNo) < WORD && Pack(flow, seqNo) == flow * 0x100_0000_0000_0000 + seqNo
  {
    assert SEQ_LIMIT == RING * (SEQ_LIMIT / RING);
  }

  /** A sequence number that does not fit is reduced to its ring slot. */
  lemma PackTooLarge(flow: nat, seqNo: nat)
    requires flow < 256 && seqNo >= 0x100_0000_0000_0000
    ensures UnpackFlow(Pack(flow, seqNo)) == flow && UnpackSeq(Pack(flow, seqNo)) == seqNo % 64
  {
  }

  // ---------------------------------------------------------------- state

  datatype Slot = Slot(free: bool, stamp: nat)

  /** The four statements that post one segment, in the order of the loop body. */
  datatype PostStep = ToPost | ToStamp | ToCount | ToMark

  /** Where the sender thread is, with the local values that it carries. */
  datatype Pc =
    | LoopTop
    | HasWindow(w: real)
    | Pacing(w: real)
    | Sizing(w: real)
    | Scanning(allow: nat, i: nat)
    | Posting(n: nat, i: nat, step: PostStep, clock: nat)
    | Done

  /**
   * The shared variables of a flow and its sender. The last line is history that the program does not
   * store: what was posted in which order, the stamp written for each segment, the last segment to
   * occupy each slot, and which segments have completed, been credited back and been freed.
   */
  datatype Flow = Flow(
    iters: nat, ring: seq<Slot>, inflight: int, cc: CC.State, nextSeq: nat, pc: Pc,
    log: seq<nat>, stamps: seq<nat>, occupant: seq<nat>, arrived: set<nat>, credited: set<nat>, freed: set<nat>)

  /** What the environment decides in a sender step: whether the post succeeds, and the hardware clock. */
  datatype Choice = Choice(postOk: bool, clock: nat)

  /** How far the poller has got with a completion. */
  datatype Stage = Waiting | ToCredit | ToRtt | ToUpdate(rttNs: nat) | ToClamp | ToFree

  /** The poller's business with this flow at a moment. */
  datatype View = Elsewhere | Handling(q: nat, stage: Stage)

  ghost function InitialFlow(iters: nat, window: real, now: nat): Flow {
    Flow(iters, seq(RING, i => Slot(true, 0)), 0, CC.Initial(window, now), 0, LoopTop,
         [], [], seq(RING, i => 0), {}, {}, {})
  }

  // ---------------------------------------------------------------- the sender thread

  function Smaller(a: nat, b: nat): nat { if a < b then a else b }

  /** The conversion of a non-negative double to an unsigned integer. */
  function Truncate(x: real): nat { if x < 0.0 then 0 else x.Floor }

  /** The ring slot of a sequence number. */
  function Ix(seqNo: nat): nat { seqNo % RING }

  ghost function SlotOf(flow: nat, seqNo: nat): nat
    requires flow < 256
  {
    Pack(flow, seqNo) % RING
  }

  /** The next step of the sender thread of flow `f`. */
  ghost function SenderStep(fl: Flow, f: nat, ch: Choice): Flow
    requires f < 256 && |fl.ring| == |fl.occupant| == RING
  {
    match fl.pc
    case Done => fl
    case LoopTop =>
      if fl.nextSeq == fl.iters then fl.(pc := Done) else fl.(pc := HasWindow(fl.cc.window))
    case HasWindow(w) =>
      if w > fl.inflight as real then fl.(pc := if w < 1.0 then Pacing(w) else Sizing(w)) else fl.(pc := LoopTop)
    case Pacing(w) =>
      if fl.ring[Ix(fl.nextSeq)].free then fl.(pc := Posting(1, 0, ToPost, ch.clock)) else fl.(pc := LoopTop)
    case Sizing(w) =>
      var room := Truncate(w - fl.inflight as real);
      fl.(pc := Scanning(if fl.nextSeq <= fl.iters then Smaller(room, fl.iters - fl.nextSeq) else room, 0))
    case Scanning(allow, i) =>
      if i < allow && fl.ring[(i + fl.nextSeq % RING) % RING].free then fl.(pc := Scanning(allow, i + 1))
      else if i == 0 then fl.(pc := LoopTop)
      else fl.(pc := Posting(i, 0, ToPost, ch.clock))
    case Posting(n, i, ToPost, clock) =>
      if i == n then fl.(nextSeq := fl.nextSeq + n, pc := LoopTop)
      else if ch.postOk then fl.(log := fl.log + [fl.nextSeq + i], pc := Posting(n, i, ToStamp, clock))
      else fl.(nextSeq := fl.nextSeq + i, pc := LoopTop)
    case Posting(n, i, ToStamp, clock) =>
      var b, t := SlotOf(f, fl.nextSeq + i), clock + i * WR_GAP;
      fl.(ring := fl.ring[b := fl.ring[b].(stamp := t)], stamps := fl.stamps + [t], pc := Posting(n, i, ToCount, clock))
    case Posting(n, i, ToCount, clock) =>
      fl.(inflight := fl.inflight + 1, pc := Posting(n, i, ToMark, clock))
    case Posting(n, i, ToMark, clock) =>
      var b := SlotOf(f, fl.nextSeq + i);
      fl.(ring := fl.ring[b := fl.ring[b].(free := false)], occupant := fl.occupant[b := fl.nextSeq + i],
          pc := Posting(n, i + 1, ToPost, clock))
  }

  // ---------------------------------------------------------------- the network card and the poller

  /** The card completes a posted segment, in whatever order. */
  ghost function Complete(fl: Flow, q: nat): Flow { fl.(arrived := fl.arrived + {q}) }

  ghost function Credit(fl: Flow, q: nat): Flow {
    fl.(inflight := fl.inflight - 1, credited := fl.credited + {q})
  }

  ghost function Free(fl: Flow, q: nat): Flow
    requires |fl.ring| == RING
  {
    fl.(ring := fl.ring[Ix(q) := fl.ring[Ix(q)].(free := true)], freed := fl.freed + {q})
  }

  /** The RTT in nanoseconds, in 64-bit unsigned arithmetic. */
  function Rtt(cqeTime: nat, stamp: nat): nat { (cqeTime - stamp) % WORD }

  // ---------------------------------------------------------------- how far the sender has got

  /** Segments handed to the card, stamped, counted as in flight, and marked busy; 0 .. that number. */
  ghost function Posted(fl: Flow): nat {
    if fl.pc.Posting? then fl.nextSeq + fl.pc.i + (if fl.pc.step == ToPost then 0 else 1) else fl.nextSeq
  }

  ghost function Stamped(fl: Flow): nat {
    if fl.pc.Posting? then fl.nextSeq + fl.pc.i + (if fl.pc.step == ToCount || fl.pc.step == ToMark then 1 else 0)
    else fl.nextSeq
  }

  ghost function Counted(fl: Flow): nat {
    if fl.pc.Posting? then fl.nextSeq + fl.pc.i + (if fl.pc.step == ToMark then 1 else 0) else fl.nextSeq
  }

  ghost function Marked(fl: Flow): nat {
    if fl.pc.Posting? then fl.nextSeq + fl.pc.i else fl.nextSeq
  }

  // ---------------------------------------------------------------- the invariant

  /** Sizes, and the order in which a segment is posted, completed, credited and freed. */
  ghost predicate Bookkeeping(fl: Flow) {
    && |fl.ring| == |fl.occupant| == RING
    && fl.nextSeq <= fl.iters < SEQ_LIMIT
    && |fl.stamps| == Stamped(fl)
    && fl.inflight == Counted(fl) - |fl.credited|
    && fl.inflight <= 20
  }

  ghost predicate PostedInOrder(log: seq<nat>, posted: nat) {
    |log| == posted && forall k :: 0 <= k < |log| ==> log[k] == k
  }

  ghost predicate Below(s: set<nat>, n: nat) {
    forall q :: q in s ==> q < n
  }

  /** A segment that is marked and not freed holds its slot, and a busy slot is held by its occupant. */
  ghost predicate SlotsHeld(ring: seq<Slot>, occupant: seq<nat>, marked: nat, freed: set<nat>)
    requires |ring| == |occupant| == RING
  {
    && (forall q :: 0 <= q < marked && q !in freed ==> !ring[Ix(q)].free)
    && (forall b :: 0 <= b < RING && !ring[b].free ==>
          occupant[b] < marked && occupant[b] !in freed && Ix(occupant[b]) == b)
  }

  /** Two outstanding segments never share a slot. */
  ghost predicate SlotsDistinct(posted: nat, freed: set<nat>) {
    forall p, q :: 0 <= p < q < posted && p !in freed && q !in freed ==> Ix(p) != Ix(q)
  }

  /** The slot of an outstanding segment holds the stamp written for that very segment. */
  ghost predicate StampsKept(ring: seq<Slot>, stamps: seq<nat>, freed: set<nat>)
    requires |ring| == RING
  {
    forall q :: 0 <= q < |stamps| && q !in freed ==> ring[Ix(q)].stamp == stamps[q]
  }

  /** The slots of segments from .. to-1 are free. */
  ghost predicate FreeAhead(ring: seq<Slot>, from: nat, to: nat)
    requires |ring| == RING
  {
    forall q :: from <= q < to ==> ring[Ix(q)].free
  }

  /** What the sender's local values promise: the window just read, and the slots it may still use. */
  ghost predicate SenderSound(fl: Flow)
    requires Bookkeeping(fl)
  {
    match fl.pc
    case LoopTop => true
    case Done => fl.nextSeq == fl.iters
    case HasWindow(w) => 0.01 < w <= 20.5 && fl.nextSeq < fl.iters
    case Pacing(w) => fl.inflight <= 0 && fl.nextSeq < fl.iters
    case Sizing(w) => 1.0 <= w <= 20.5 && w > fl.inflight as real && fl.nextSeq < fl.iters
    case Scanning(allow, i) =>
      && i <= allow && fl.inflight + allow <= 20 && fl.nextSeq + allow <= fl.iters
      && fl.nextSeq < fl.iters && FreeAhead(fl.ring, fl.nextSeq, fl.nextSeq + i)
    case Posting(n, i, step, clock) =>
      && 1 <= n && i <= n <= 20 && (step != ToPost ==> i < n) && fl.nextSeq + n <= fl.iters
      && fl.inflight + n - (Counted(fl) - fl.nextSeq) <= 20
      && FreeAhead(fl.ring, fl.nextSeq + i, fl.nextSeq + n)
  }

  /** Between update and clamp the window is in (0.01, 20.5], and clamping makes the state valid again. */
  ghost predicate MidUpdate(cfg: CC.Config, u: CC.State) {
    0.01 < u.window <= 20.5 && forall t2 :: CC.ValidState(cfg, CC.Settled(u, t2))
  }

  ghost predicate ControllerSound(cfg: CC.Config, cc: CC.State, view: View) {
    if view.Handling? && view.stage == ToClamp then MidUpdate(cfg, cc) else CC.ValidState(cfg, cc)
  }

  /** Exactly the completion being handled may be credited and not yet freed. */
  ghost predicate ViewSound(view: View, marked: nat, arrived: set<nat>, credited: set<nat>, freed: set<nat>) {
    match view
    case Elsewhere => credited == freed
    case Handling(q, stage) =>
      && q in arrived && q !in freed
      && (stage == ToCredit ==> q < marked)
      && credited == freed + if stage == Waiting || stage == ToCredit then {} else {q}
  }

  ghost predicate FlowInv(cfg: CC.Config, fl: Flow, view: View) {
    && Bookkeeping(fl)
    && PostedInOrder(fl.log, Posted(fl))
    && Below(fl.arrived, Posted(fl)) && fl.credited <= fl.arrived
    && Below(fl.credited, Marked(fl)) && fl.freed <= fl.credited
    && SlotsHeld(fl.ring, fl.occupant, Marked(fl), fl.freed)
    && SlotsDistinct(Posted(fl), fl.freed)
    && StampsKept(fl.ring, fl.stamps, fl.freed)
    && SenderSound(fl)
    && ControllerSound(cfg, fl.cc, view)
    && ViewSound(view, Marked(fl), fl.arrived, fl.credited, fl.freed)
  }

  lemma InitialFlowInv(cfg: CC.Config, iters: nat, window: real, now: nat)
    requires iters < SEQ_LIMIT && CC.MIN_WINDOW <= window <= CC.MAX_WINDOW
    ensures FlowInv(cfg, InitialFlow(iters, window, now), Elsewhere)
  {
  }

  // ---------------------------------------------------------------- sender steps keep it

  lemma WindowSeen(cfg: CC.Config, cc: CC.State, view: View)
    requires ControllerSound(cfg, cc, view)
    ensures 0.01 < cc.window <= 20.5
  {
  }

  lemma TruncateFacts(w: real, k: int)
    requires w > k as real && w <= 20.5
    ensures Truncate(w - k as real) + k <= 20
    ensures w >= 1.0 && k <= 0 ==> Truncate(w - k as real) >= 1
  {
    var x := w - k as real;
    assert x.Floor as real <= x;
    assert (x.Floor + k) as real <= 20.5;
    if w >= 1.0 && k <= 0 {
      assert x >= 1.0;
    }
  }

  lemma ScanIndex(i: nat, nextSeq: nat)
    ensures (i + nextSeq % RING) % RING == Ix(nextSeq + i)
  {
    assert nextSeq == RING * (nextSeq / RING) + nextSeq % RING;
    assert nextSeq + i == RING * (nextSeq / RING) + (i + nextSeq % RING);
  }

  lemma {:induction false} BelowFits(s: set<nat>, n: nat)
    requires Below(s, n)
    ensures |s| <= n
  {
    if n == 0 {
      assert s == {};
    } else {
      BelowFits(s - {n - 1}, n - 1);
      if n - 1 in s {
        assert s == (s - {n - 1}) + {n - 1};
      } else {
        assert s == s - {n - 1};
      }
    }
  }

  /** The in-flight counter never goes below zero. */
  lemma InflightNonNegative(cfg: CC.Config, fl: Flow, view: View)
    requires FlowInv(cfg, fl, view)
    ensures 0 <= fl.inflight <= 20
  {
    BelowFits(fl.credited, Marked(fl));
  }

  /** Steps that only move the sender's program counter. */
  lemma SenderLooks(cfg: CC.Config, fl: Flow, view: View, f: nat, ch: Choice)
    requires FlowInv(cfg, fl, view) && f < 256 && !fl.pc.Posting?
    ensures FlowInv(cfg, SenderStep(fl, f, ch), view)
  {
    hide ControllerSound, SlotsHeld, SlotsDistinct, StampsKept, PostedInOrder, Below, ViewSound, FreeAhead, SenderSound;
    SoundLook(cfg, fl, view, f, ch);
    OnlyCounterMoves(fl, f, ch);
  }

  lemma OnlyCounterMoves(fl: Flow, f: nat, ch: Choice)
    requires f < 256 && !fl.pc.Posting? && |fl.ring| == |fl.occupant| == RING
    ensures var fl' := SenderStep(fl, f, ch);
            && fl' == fl.(pc := fl'.pc)
            && Posted(fl') == Posted(fl) && Stamped(fl') == Stamped(fl)
            && Counted(fl') == Counted(fl) && Marked(fl') == Marked(fl)
  {
  }

  lemma SoundLook(cfg: CC.Config, fl: Flow, view: View, f: nat, ch: Choice)
    requires FlowInv(cfg, fl, view) && f < 256 && !fl.pc.Posting?
    ensures Bookkeeping(SenderStep(fl, f, ch)) && SenderSound(SenderStep(fl, f, ch))
  {
    hide ControllerSound, SlotsHeld, SlotsDistinct, StampsKept, PostedInOrder, Below, ViewSound;
    if fl.pc.Scanning? {
      ScanIndex(fl.pc.i, fl.nextSeq);
      InflightNonNegative(cfg, fl, view);
    } else {
      hide FreeAhead;
      WindowSeen(cfg, fl.cc, view);
      match fl.pc
      case Sizing(w) =>
        TruncateFacts(w, fl.inflight);
        NothingAhead(fl.ring, fl.nextSeq);
      case HasWindow(w) =>
        assert w > fl.inflight as real && w < 1.0 ==> fl.inflight <= 0;
      case Pacing(w) =>
        OneAhead(fl.ring, fl.nextSeq);
      case LoopTop =>
      case Done =>
    }
  }

  lemma NothingAhead(ring: seq<Slot>, from: nat)
    requires |ring| == RING
    ensures FreeAhead(ring, from, from)
  {
  }

  lemma OneAhead(ring: seq<Slot>, from: nat)
    requires |ring| == RING
    ensures ring[Ix(from)].free ==> FreeAhead(ring, from, from + 1)
  {
  }

  lemma FreeMeansUnheld(ring: seq<Slot>, occupant: seq<nat>, marked: nat, freed: set<nat>, q: nat)
    requires |ring| == |occupant| == RING && SlotsHeld(ring, occupant, marked, freed) && ring[Ix(q)].free
    requires q == marked && SlotsDistinct(marked, freed)
    ensures SlotsDistinct(q + 1, freed)
  {
  }

  /** Posting: the slots ahead are free, so every earlier segment with the same slot has been freed. */
  lemma SenderPosts(cfg: CC.Config, fl: Flow, view: View, f: nat, ch: Choice)
    requires FlowInv(cfg, fl, view) && f < 256 && fl.pc.Posting? && fl.pc.step == ToPost
    ensures FlowInv(cfg, SenderStep(fl, f, ch), view)
  {
    hide ControllerSound, SlotsHeld, SlotsDistinct, StampsKept, ViewSound;
    if fl.pc.i < fl.pc.n && ch.postOk {
      FreeMeansUnheld(fl.ring, fl.occupant, Marked(fl), fl.freed, fl.nextSeq + fl.pc.i);
    }
  }

  /** Changing the stamp of a slot that no other outstanding segment uses. */
  lemma StampOne(ring: seq<Slot>, occupant: seq<nat>, stamps: seq<nat>, marked: nat, freed: set<nat>, t: nat)
    requires |ring| == |occupant| == RING && SlotsHeld(ring, occupant, marked, freed)
    requires SlotsDistinct(|stamps| + 1, freed) && StampsKept(ring, stamps, freed) && |stamps| !in freed
    ensures var ring' := ring[Ix(|stamps|) := ring[Ix(|stamps|)].(stamp := t)];
            && StampsKept(ring', stamps + [t], freed) && SlotsHeld(ring', occupant, marked, freed)
            && forall from, to :: FreeAhead(ring, from, to) ==> FreeAhead(ring', from, to)
  {
  }

  lemma SenderStamps(cfg: CC.Config, fl: Flow, view: View, f: nat, ch: Choice)
    requires FlowInv(cfg, fl, view) && f < 256 && fl.pc.Posting? && fl.pc.step == ToStamp
    ensures FlowInv(cfg, SenderStep(fl, f, ch), view)
  {
    hide ControllerSound, SlotsHeld, SlotsDistinct, StampsKept, ViewSound, PostedInOrder, FreeAhead;
    var q := fl.nextSeq + fl.pc.i;
    PackFacts(f, q);
    StampOne(fl.ring, fl.occupant, fl.stamps, Marked(fl), fl.freed, fl.pc.clock + fl.pc.i * WR_GAP);
  }

  lemma SenderCounts(cfg: CC.Config, fl: Flow, view: View, f: nat, ch: Choice)
    requires FlowInv(cfg, fl, view) && f < 256 && fl.pc.Posting? && fl.pc.step == ToCount
    ensures FlowInv(cfg, SenderStep(fl, f, ch), view)
  {
    hide ControllerSound, SlotsHeld, SlotsDistinct, StampsKept, ViewSound, PostedInOrder, FreeAhead, Below;
  }

  /** Marking a slot busy for segment q, whose slot is nobody else's. */
  lemma MarkOne(ring: seq<Slot>, occupant: seq<nat>, stamps: seq<nat>, q: nat, freed: set<nat>, n: nat)
    requires |ring| == |occupant| == RING && SlotsHeld(ring, occupant, q, freed) && q !in freed
    requires StampsKept(ring, stamps, freed) && FreeAhead(ring, q, q + n) && 1 <= n <= 20
    ensures var ring' := ring[Ix(q) := ring[Ix(q)].(free := false)];
            && SlotsHeld(ring', occupant[Ix(q) := q], q + 1, freed)
            && StampsKept(ring', stamps, freed)
            && FreeAhead(ring', q + 1, q + n)
  {
    assert forall p :: q < p < q + n ==> Ix(p) != Ix(q);
  }

  lemma SenderMarks(cfg: CC.Config, fl: Flow, view: View, f: nat, ch: Choice)
    requires FlowInv(cfg, fl, view) && f < 256 && fl.pc.Posting? && fl.pc.step == ToMark
    ensures FlowInv(cfg, SenderStep(fl, f, ch), view)
  {
    hide ControllerSound, SlotsHeld, SlotsDistinct, StampsKept, PostedInOrder, FreeAhead;
    var q := fl.nextSeq + fl.pc.i;
    PackFacts(f, q);
    MarkOne(fl.ring, fl.occupant, fl.stamps, q, fl.freed, fl.pc.n - fl.pc.i);
  }

  lemma SenderKeepsInv(cfg: CC.Config, fl: Flow, view: View, f: nat, ch: Choice)
    requires FlowInv(cfg, fl, view) && f < 256
    ensures FlowInv(cfg, SenderStep(fl, f, ch), view)
  {
    hide Bookkeeping, PostedInOrder, Below, SlotsHeld, SlotsDistinct, StampsKept, SenderSound, ControllerSound,
         ViewSound;
    assert |fl.ring| == |fl.occupant| == RING by {
      RingSizes(cfg, fl, view);
    }
    if !fl.pc.Posting? {
      SenderLooks(cfg, fl, view, f, ch);
    } else {
      match fl.pc.step
      case ToPost => SenderPosts(cfg, fl, view, f, ch);
      case ToStamp => SenderStamps(cfg, fl, view, f, ch);
      case ToCount => SenderCounts(cfg, fl, view, f, ch);
      case ToMark => SenderMarks(cfg, fl, view, f, ch);
    }
  }

  lemma RingSizes(cfg: CC.Config, fl: Flow, view: View)
    requires FlowInv(cfg, fl, view)
    ensures |fl.ring| == |fl.occupant| == RING
  {
  }

  // ---------------------------------------------------------------- card and poller steps keep it

  lemma CompleteKeepsInv(cfg: CC.Config, fl: Flow, view: View, q: nat)
    requires FlowInv(cfg, fl, view) && q < Posted(fl)
    ensures FlowInv(cfg, Complete(fl, q), view)
  {
    hide ControllerSound, SlotsHeld, SlotsDistinct, StampsKept, PostedInOrder, FreeAhead;
  }

  lemma StartHandling(cfg: CC.Config, fl: Flow, q: nat)
    requires FlowInv(cfg, fl, Elsewhere) && q in fl.arrived && q !in fl.freed
    ensures FlowInv(cfg, fl, Handling(q, Waiting))
  {
    hide SlotsHeld, SlotsDistinct, StampsKept, PostedInOrder, FreeAhead, Below, SenderSound, CC.ValidState;
  }

  lemma StopHandling(cfg: CC.Config, fl: Flow, q: nat)
    requires FlowInv(cfg, fl, Handling(q, Waiting))
    ensures FlowInv(cfg, fl, Elsewhere)
  {
    hide SlotsHeld, SlotsDistinct, StampsKept, PostedInOrder, FreeAhead, Below, SenderSound, CC.ValidState;
  }

  /** A busy slot can only be that of the completed segment, so its counting and stamping are behind it. */
  lemma SeeBusy(cfg: CC.Config, fl: Flow, q: nat)
    requires FlowInv(cfg, fl, Handling(q, Waiting)) && !fl.ring[Ix(q)].free
    ensures FlowInv(cfg, fl, Handling(q, ToCredit))
  {
    hide StampsKept, PostedInOrder, FreeAhead, SenderSound, CC.ValidState;
    var o := fl.occupant[Ix(q)];
    assert Ix(o) == Ix(q) && o !in fl.freed && o < Posted(fl) && q < Posted(fl);
    assert o == q;
  }

  lemma CreditKeepsInv(cfg: CC.Config, fl: Flow, q: nat)
    requires FlowInv(cfg, fl, Handling(q, ToCredit))
    ensures fl.inflight >= 1
    ensures FlowInv(cfg, Credit(fl, q), Handling(q, ToRtt))
  {
    hide SlotsHeld, SlotsDistinct, StampsKept, PostedInOrder, FreeAhead, CC.ValidState;
    assert q !in fl.credited;
    BelowFits(fl.credited + {q}, Marked(fl));
  }

  lemma RttKeepsInv(cfg: CC.Config, fl: Flow, q: nat, cqeTime: nat)
    requires FlowInv(cfg, fl, Handling(q, ToRtt))
    ensures q < |fl.stamps| && fl.ring[Ix(q)].stamp == fl.stamps[q]
    ensures FlowInv(cfg, fl, Handling(q, ToUpdate(Rtt(cqeTime, fl.ring[Ix(q)].stamp))))
  {
    hide SlotsHeld, SlotsDistinct, PostedInOrder, FreeAhead, SenderSound, CC.ValidState;
    assert q in fl.credited;
  }

  lemma UpdateKeepsInv(cfg: CC.Config, sqrt: real -> real, fl: Flow, q: nat, rttNs: nat, t1: nat)
    requires CC.ValidConfig(cfg, sqrt) && FlowInv(cfg, fl, Handling(q, ToUpdate(rttNs)))
    ensures FlowInv(cfg, fl.(cc := CC.Updated(cfg, sqrt, fl.cc, rttNs as real / 1000.0, t1)), Handling(q, ToClamp))
  {
    hide SlotsHeld, SlotsDistinct, StampsKept, PostedInOrder, FreeAhead, Below;
    hide CC.ValidConfig, CC.Updated, CC.Settled, CC.ValidState, CC.IsSqrt;
    var sample := rttNs as real / 1000.0;
    var u := CC.Updated(cfg, sqrt, fl.cc, sample, t1);
    forall t2: nat ensures CC.ValidState(cfg, CC.Settled(u, t2)) {
      CC.WindowInRange(cfg, sqrt, fl.cc, sample, t1, t2);
    }
    CC.WindowInRange(cfg, sqrt, fl.cc, sample, t1, t1);
  }

  lemma ClampKeepsInv(cfg: CC.Config, fl: Flow, q: nat, t2: nat)
    requires FlowInv(cfg, fl, Handling(q, ToClamp))
    ensures FlowInv(cfg, fl.(cc := CC.Settled(fl.cc, t2)), Handling(q, ToFree))
  {
    hide SlotsHeld, SlotsDistinct, StampsKept, PostedInOrder, FreeAhead, Below, CC.Settled, CC.ValidState;
    assert CC.ValidState(cfg, CC.Settled(fl.cc, t2));
  }

  /** Freeing the slot of q, which no other outstanding segment uses. */
  lemma FreeOne(ring: seq<Slot>, occupant: seq<nat>, stamps: seq<nat>, marked: nat, posted: nat, freed: set<nat>,
                q: nat)
    requires |ring| == |occupant| == RING && SlotsHeld(ring, occupant, marked, freed)
    requires SlotsDistinct(posted, freed) && StampsKept(ring, stamps, freed)
    requires q < marked <= posted && q !in freed
    ensures var ring' := ring[Ix(q) := ring[Ix(q)].(free := true)];
            && SlotsHeld(ring', occupant, marked, freed + {q})
            && SlotsDistinct(posted, freed + {q})
            && StampsKept(ring', stamps, freed + {q})
            && forall from, to :: FreeAhead(ring, from, to) ==> FreeAhead(ring', from, to)
  {
  }

  lemma FreeKeepsInv(cfg: CC.Config, fl: Flow, q: nat)
    requires FlowInv(cfg, fl, Handling(q, ToFree))
    ensures FlowInv(cfg, Free(fl, q), Elsewhere)
    ensures |Free(fl, q).freed| == |fl.freed| + 1
  {
    hide SlotsHeld, SlotsDistinct, StampsKept, PostedInOrder, FreeAhead, CC.ValidState;
    FreeOne(fl.ring, fl.occupant, fl.stamps, Marked(fl), Posted(fl), fl.freed, q);
  }
}
