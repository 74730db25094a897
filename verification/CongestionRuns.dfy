/** What the congestion controller guarantees over whole runs of acknowledgements. */
module CongestionRuns {
  import opened CongestionControl

  /** One acknowledgement: its RTT sample and the two clock readings taken while it is handled. */
  datatype Ack = Ack(sample: real, t1: nat, t2: nat)

  ghost function EndTime(start: nat, acks: seq<Ack>): nat {
    if acks == [] then start else acks[|acks| - 1].t2
  }

  /** The clock never runs backwards. */
  ghost predicate Monotone(start: nat, acks: seq<Ack>) {
    acks == []
    || (var init, ack := acks[..|acks| - 1], acks[|acks| - 1];
        Monotone(start, init) && EndTime(start, init) <= ack.t1 <= ack.t2)
  }

  /** The controller's state after a run. */
  ghost function After(c: Config, sqrt: real -> real, s: State, acks: seq<Ack>): (r: State)
    requires ValidConfig(c, sqrt) && ValidState(c, s)
    ensures ValidState(c, r) && r.acks == s.acks + |acks|
  {
    if acks == [] then s
    else
      var before := After(c, sqrt, s, acks[..|acks| - 1]);
      var ack := acks[|acks| - 1];
      WindowInRange(c, sqrt, before, ack.sample, ack.t1, ack.t2);
      Acked(c, sqrt, before, ack.sample, ack.t1, ack.t2)
  }

  lemma AfterStep(c: Config, sqrt: real -> real, s: State, acks: seq<Ack>)
    requires ValidConfig(c, sqrt) && ValidState(c, s) && acks != []
    ensures var before, ack := After(c, sqrt, s, acks[..|acks| - 1]), acks[|acks| - 1];
            && ValidState(c, before)
            && After(c, sqrt, s, acks) == Acked(c, sqrt, before, ack.sample, ack.t1, ack.t2)
  {
  }

  // ---------------------------------------------------------------- decreases are spaced out

  function Square(x: real): real { x * x }

  function Times(k: nat, x: real): real { k as real * x }

  /** How many acknowledgements of the run strictly lower the window. */
  ghost function Decreases(c: Config, sqrt: real -> real, s: State, acks: seq<Ack>): nat
    requires ValidConfig(c, sqrt) && ValidState(c, s)
  {
    if acks == [] then 0
    else
      var init := acks[..|acks| - 1];
      Decreases(c, sqrt, s, init)
      + if After(c, sqrt, s, acks).window < After(c, sqrt, s, init).window then 1 else 0
  }

  ghost predicate SamplesWithin(c: Config, acks: seq<Ack>, lo: real, hi: real) {
    forall i :: 0 <= i < |acks| ==> lo <= Clamped(c, acks[i].sample) <= hi
  }

  /** The smoothed RTT is an average of the clamped samples, so it stays between the least and the greatest. */
  lemma {:induction false} SmoothedWithin(c: Config, sqrt: real -> real, window: real, start: nat,
                                          acks: seq<Ack>, lo: real, hi: real)
    requires ValidConfig(c, sqrt) && MIN_WINDOW <= window <= MAX_WINDOW
    requires acks != [] && SamplesWithin(c, acks, lo, hi)
    ensures lo <= After(c, sqrt, Initial(window, start), acks).vagueRtt <= hi
  {
    var s, init, ack := Initial(window, start), acks[..|acks| - 1], acks[|acks| - 1];
    AfterStep(c, sqrt, s, acks);
    var before := After(c, sqrt, s, init);
    SmoothedPositive(c, before, Clamped(c, ack.sample));
    if init != [] {
      SmoothedWithin(c, sqrt, window, start, init, lo, hi);
    }
  }

  /** Converting to microseconds: splitting an interval splits its length. */
  lemma ElapsedAdds(c: Config, a: nat, b: nat, d: nat)
    requires c.freqGhz > 0.0 && a <= b <= d
    ensures ElapsedUs(c, a, d) == ElapsedUs(c, a, b) + ElapsedUs(c, b, d)
    ensures ElapsedUs(c, b, d) >= 0.0
  {
    var f := c.freqGhz * 1000.0;
    QuotientCompare((d - b) as real, f, 0.0);
    assert (d - a) as real == (b - a) as real + (d - b) as real;
    assert ElapsedUs(c, a, d) * f == (ElapsedUs(c, a, b) + ElapsedUs(c, b, d)) * f;
    MulCompare(ElapsedUs(c, a, d), ElapsedUs(c, a, b) + ElapsedUs(c, b, d), f);
    MulCompare(ElapsedUs(c, a, b) + ElapsedUs(c, b, d), ElapsedUs(c, a, d), f);
  }

  /**
   * k strict decreases take more than k times the least clamped sample (so more than k base RTTs):
   * each one needs more than the smoothed RTT since the one before, or since the start.
   */
  lemma {:induction false} DecreasesTakeTime(c: Config, sqrt: real -> real, window: real, start: nat,
                                             acks: seq<Ack>, lo: real, hi: real)
    requires ValidConfig(c, sqrt) && MIN_WINDOW <= window <= MAX_WINDOW
    requires Monotone(start, acks) && SamplesWithin(c, acks, lo, hi) && c.freqGhz > 0.0
    ensures var s := Initial(window, start);
            var k, last := Decreases(c, sqrt, s, acks), After(c, sqrt, s, acks).lastDecrease;
            && start <= last <= EndTime(start, acks)
            && (if k == 0 then last == start else ElapsedUs(c, start, last) > Times(k, lo))
  {
    hide IsSqrt, Acked, ElapsedUs, Late, ValidState, Times;
    var s := Initial(window, start);
    InitialIsValid(c, window, start);
    if acks != [] {
      var init, ack := acks[..|acks| - 1], acks[|acks| - 1];
      assert SamplesWithin(c, init, lo, hi);
      DecreasesTakeTime(c, sqrt, window, start, init, lo, hi);
      AfterStep(c, sqrt, s, acks);
      var before, after := After(c, sqrt, s, init), After(c, sqrt, s, acks);
      DecreaseIsMarked(c, sqrt, before, ack.sample, ack.t1, ack.t2);
      if after.window < before.window {
        SmoothedWithin(c, sqrt, window, start, acks, lo, hi);
        WhenLate(c, before.lastDecrease, ack.t1, after.vagueRtt);
        OneMoreInterval(c, start, before.lastDecrease, ack.t1, ack.t2, Decreases(c, sqrt, s, init), lo);
      }
    }
  }

  lemma InitialIsValid(c: Config, window: real, start: nat)
    requires MIN_WINDOW <= window <= MAX_WINDOW
    ensures ValidState(c, Initial(window, start))
  {
  }

  /** k intervals longer than lo each, and one more. */
  lemma OneMoreInterval(c: Config, start: nat, last: nat, t1: nat, t2: nat, k: nat, lo: real)
    requires c.freqGhz > 0.0 && start <= last <= t1 <= t2
    requires if k == 0 then last == start else ElapsedUs(c, start, last) > Times(k, lo)
    requires ElapsedUs(c, last, t1) > lo
    ensures ElapsedUs(c, start, t2) > Times(k + 1, lo)
  {
    ElapsedAdds(c, start, last, t2);
    ElapsedAdds(c, last, t1, t2);
    assert (k + 1) as real * lo == k as real * lo + lo;
    assert ElapsedUs(c, start, start) == 0.0;
  }

  lemma KDecreasesTakeKBaseRtts(c: Config, sqrt: real -> real, window: real, start: nat, acks: seq<Ack>)
    requires ValidConfig(c, sqrt) && MIN_WINDOW <= window <= MAX_WINDOW && Monotone(start, acks) && c.freqGhz > 0.0
    ensures var k := Decreases(c, sqrt, Initial(window, start), acks);
            k > 0 ==> ElapsedUs(c, start, EndTime(start, acks)) > Times(k, c.baseRtt)
  {
    var hi := Highest(c, acks);
    DecreasesTakeTime(c, sqrt, window, start, acks, c.baseRtt, hi);
    ElapsedAdds(c, start, After(c, sqrt, Initial(window, start), acks).lastDecrease, EndTime(start, acks));
  }

  ghost function Highest(c: Config, acks: seq<Ack>): (hi: real)
    ensures forall i :: 0 <= i < |acks| ==> Clamped(c, acks[i].sample) <= hi
  {
    if acks == [] then 0.0
    else
      var h, x := Highest(c, acks[..|acks| - 1]), Clamped(c, acks[|acks| - 1].sample);
      assert forall i :: 0 <= i < |acks| - 1 ==> acks[i] == acks[..|acks| - 1][i];
      Max(h, x)
  }

  /** With frequency zero an acknowledgement above target lowers a window that is not at its floor, after any tick. */
  lemma ZeroFrequencyNeverWaits(c: Config, sqrt: real -> real, s: State, ack: Ack)
    requires ValidConfig(c, sqrt) && ValidState(c, s) && !c.fixWindow && c.freqGhz == 0.0
    requires Clamped(c, ack.sample) > Target(c, sqrt, s.window)
    ensures var r := Acked(c, sqrt, s, ack.sample, ack.t1, ack.t2);
            r.window < s.window <==> s.lastDecrease < ack.t1 && s.window != MIN_WINDOW
  {
    hide Target, IsSqrt, NextWindow;
    var u := Smoothed(s, Clamped(c, ack.sample));
    SmoothedPositive(c, s, Clamped(c, ack.sample));
    UpdateMoves(u, Target(c, sqrt, u.window), Late(c, u.lastDecrease, ack.t1, u.vagueRtt));
    WhenLate(c, u.lastDecrease, ack.t1, u.vagueRtt);
  }

  ghost predicate AllAbove(c: Config, acks: seq<Ack>, target: real) {
    forall i :: 0 <= i < |acks| ==> Clamped(c, acks[i].sample) > target
  }

  /** Every acknowledgement is handled at least one tick after the one before. */
  ghost predicate Ticking(start: nat, acks: seq<Ack>) {
    acks == []
    || (var init, ack := acks[..|acks| - 1], acks[|acks| - 1];
        Ticking(start, init) && EndTime(start, init) < ack.t1 <= ack.t2)
  }

  /**
   * So the spacing of decreases needs a positive frequency: with frequency zero every acknowledgement of a
   * run above a fixed target is a decrease until the window is at its floor, however few ticks lie between.
   */
  lemma {:induction false} ZeroFrequencyRun(c: Config, sqrt: real -> real, window: real, start: nat, acks: seq<Ack>)
    requires ValidConfig(c, sqrt) && MIN_WINDOW <= window <= MAX_WINDOW && !c.fixWindow && c.fixTarget
    requires c.freqGhz == 0.0 && Ticking(start, acks) && AllAbove(c, acks, c.fixTargetValue)
    ensures var s := Initial(window, start);
            && After(c, sqrt, s, acks).lastDecrease <= EndTime(start, acks)
            && (Decreases(c, sqrt, s, acks) == |acks| || After(c, sqrt, s, acks).window == MIN_WINDOW)
  {
    hide IsSqrt, Acked, ValidState;
    var s := Initial(window, start);
    InitialIsValid(c, window, start);
    if acks != [] {
      var init, ack := acks[..|acks| - 1], acks[|acks| - 1];
      ZeroFrequencyRun(c, sqrt, window, start, init);
      AfterStep(c, sqrt, s, acks);
      var before := After(c, sqrt, s, init);
      DecreaseIsMarked(c, sqrt, before, ack.sample, ack.t1, ack.t2);
      ZeroFrequencyNeverWaits(c, sqrt, before, ack);
      FloorIsLeast(c, sqrt, before, ack);
    }
  }

  lemma FloorIsLeast(c: Config, sqrt: real -> real, s: State, ack: Ack)
    requires ValidConfig(c, sqrt) && ValidState(c, s) && !c.fixWindow
    requires Clamped(c, ack.sample) > Target(c, sqrt, s.window)
    ensures s.window == MIN_WINDOW ==> Acked(c, sqrt, s, ack.sample, ack.t1, ack.t2).window == MIN_WINDOW
  {
    hide Target, IsSqrt, NextWindow;
    var u := Smoothed(s, Clamped(c, ack.sample));
    SmoothedPositive(c, s, Clamped(c, ack.sample));
    UpdateMoves(u, Target(c, sqrt, u.window), Late(c, u.lastDecrease, ack.t1, u.vagueRtt));
  }

  /** How much of the window one strict decrease keeps: more than a fifth, and at least 0.6 in the standard branch. */
  lemma DecreaseKeeps(c: Config, sqrt: real -> real, s: State, sample: real, t1: nat, t2: nat)
    requires ValidConfig(c, sqrt) && ValidState(c, s)
    ensures var r := Acked(c, sqrt, s, sample, t1, t2);
            && r.window > 0.2 * s.window
            && (!c.fixWindow && !SteepRise(Smoothed(s, Clamped(c, sample)), Target(c, sqrt, s.window))
                ==> r.window >= 0.6 * s.window)
  {
    var u := Smoothed(s, Clamped(c, sample));
    SmoothedPositive(c, s, Clamped(c, sample));
    if !c.fixWindow {
      UpdateMoves(u, Target(c, sqrt, u.window), Late(c, u.lastDecrease, t1, u.vagueRtt));
    }
  }

  // ---------------------------------------------------------------- growth

  ghost predicate AllAtOrBelow(c: Config, acks: seq<Ack>, target: real) {
    forall i :: 0 <= i < |acks| ==> Clamped(c, acks[i].sample) <= target
  }

  /** What an acknowledgement at or below a fixed target does to an unfixed window. */
  lemma GrowthStep(c: Config, sqrt: real -> real, s: State, ack: Ack)
    requires ValidConfig(c, sqrt) && ValidState(c, s) && !c.fixWindow && c.fixTarget
    requires Clamped(c, ack.sample) <= c.fixTargetValue
    ensures var w, v := s.window, Acked(c, sqrt, s, ack.sample, ack.t1, ack.t2).window;
            && (v == MAX_WINDOW || v >= w + (if w >= 1.0 then INCREASE_AI / w else INCREASE_AI))
            && (w == MAX_WINDOW ==> v == MAX_WINDOW)
  {
    var u := Smoothed(s, Clamped(c, ack.sample));
    SmoothedPositive(c, s, Clamped(c, ack.sample));
    UpdateMoves(u, c.fixTargetValue, Late(c, u.lastDecrease, ack.t1, u.vagueRtt));
    if s.window >= 1.0 {
      StandardStep(s.window);
    }
  }

  /** After two steps the window is above one; from there its square grows by at least one a step. */
  lemma {:induction false} GrowthSoFar(c: Config, sqrt: real -> real, s: State, acks: seq<Ack>)
    requires ValidConfig(c, sqrt) && ValidState(c, s) && !c.fixWindow && c.fixTarget
    requires AllAtOrBelow(c, acks, c.fixTargetValue)
    ensures var v, n := After(c, sqrt, s, acks).window, |acks|;
            || v == MAX_WINDOW
            || n == 0
            || (n == 1 && v >= 0.55)
            || (n >= 2 && v >= 1.0 && Square(v) >= 1.1 + (n - 2) as real)
  {
    hide ValidConfig, IsSqrt, Acked, Square;
    if acks != [] {
      var init, ack := acks[..|acks| - 1], acks[|acks| - 1];
      GrowthSoFar(c, sqrt, s, init);
      AfterStep(c, sqrt, s, acks);
      var before, after := After(c, sqrt, s, init), After(c, sqrt, s, acks);
      GrowthStep(c, sqrt, before, ack);
      if after.window != MAX_WINDOW && before.window != MAX_WINDOW {
        GrowthOfSquare(before.window, after.window);
      }
    }
  }

  lemma GrowthOfSquare(w: real, v: real)
    requires w >= 0.05 && v >= w + if w >= 1.0 then INCREASE_AI / w else INCREASE_AI
    ensures w >= 1.0 ==> v >= w && Square(v) >= Square(w) + 1.0 && Square(v) >= 2.0
    ensures w < 1.0 ==> v >= 0.55
    ensures 0.55 <= w < 1.0 ==> v >= 1.05 && Square(v) >= 1.1
  {
    if w >= 1.0 {
      StandardStep(w);
      SquaresCompare(v, w + INCREASE_AI / w);
      SquaresCompare(w, 1.0);
    } else {
      SquaresCompare(v, 1.05);
    }
  }

  /** With a fixed target, 401 acknowledgements in a row at or below it fill the window, and it stays full. */
  lemma WindowFills(c: Config, sqrt: real -> real, s: State, acks: seq<Ack>)
    requires ValidConfig(c, sqrt) && ValidState(c, s) && !c.fixWindow && c.fixTarget
    requires AllAtOrBelow(c, acks, c.fixTargetValue) && |acks| >= 401
    ensures After(c, sqrt, s, acks).window == MAX_WINDOW
  {
    hide ValidConfig, IsSqrt, Acked, Square;
    GrowthSoFar(c, sqrt, s, acks);
    AtMostTwenty(After(c, sqrt, s, acks).window);
  }

  lemma AtMostTwenty(v: real)
    requires 0.0 <= v <= MAX_WINDOW
    ensures Square(v) <= 400.0
  {
    SquaresCompare(MAX_WINDOW, v);
  }

  /** The acknowledgement takes the standard increase, and the result needs no clamping. */
  ghost predicate StandardIncrease(c: Config, sqrt: real -> real, s: State, ack: Ack)
    requires ValidConfig(c, sqrt) && ValidState(c, s)
  {
    var u := Smoothed(s, Clamped(c, ack.sample));
    && !c.fixWindow
    && u.delayNow <= Target(c, sqrt, s.window) && !SteepFall(u, Target(c, sqrt, s.window))
    && Updated(c, sqrt, s, ack.sample, ack.t1).window <= MAX_WINDOW
  }

  ghost predicate AllStandardIncreases(c: Config, sqrt: real -> real, s: State, acks: seq<Ack>)
    requires ValidConfig(c, sqrt) && ValidState(c, s)
  {
    forall i :: 0 <= i < |acks| ==> StandardIncrease(c, sqrt, After(c, sqrt, s, acks[..i]), acks[i])
  }

  /** Along n unclamped standard increases from w >= 1 the square grows to between w*w + n and w*w + 1.25n. */
  lemma {:induction false} SquareGrowth(c: Config, sqrt: real -> real, s: State, acks: seq<Ack>)
    requires ValidConfig(c, sqrt) && ValidState(c, s) && s.window >= 1.0
    requires AllStandardIncreases(c, sqrt, s, acks)
    ensures var v, w, n := After(c, sqrt, s, acks).window, s.window, |acks| as real;
            && v >= 1.0
            && Square(w) + n <= Square(v) <= Square(w) + 1.25 * n
  {
    hide ValidConfig, IsSqrt, Acked, StandardIncrease, Square;
    if acks != [] {
      var n := |acks| - 1;
      var init, ack := acks[..n], acks[n];
      forall i | 0 <= i < n ensures StandardIncrease(c, sqrt, After(c, sqrt, s, init[..i]), init[i]) {
        assert init[..i] == acks[..i];
      }
      SquareGrowth(c, sqrt, s, init);
      AfterStep(c, sqrt, s, acks);
      var before := After(c, sqrt, s, init);
      assert StandardIncrease(c, sqrt, before, ack);
      IncreaseIsStandard(c, sqrt, before, ack);
      SquareStep(s.window, before.window, n);
    }
  }

  lemma SquareStep(w: real, v: real, n: nat)
    requires v >= 1.0 && Square(w) + n as real <= Square(v) <= Square(w) + 1.25 * n as real
    ensures var u := v + INCREASE_AI / v;
            u >= 1.0 && Square(w) + (n + 1) as real <= Square(u) <= Square(w) + 1.25 * (n + 1) as real
  {
    StandardStep(v);
  }

  lemma IncreaseIsStandard(c: Config, sqrt: real -> real, s: State, ack: Ack)
    requires ValidConfig(c, sqrt) && ValidState(c, s) && s.window >= 1.0 && StandardIncrease(c, sqrt, s, ack)
    ensures Acked(c, sqrt, s, ack.sample, ack.t1, ack.t2).window == s.window + INCREASE_AI / s.window
  {
    hide ValidConfig, IsSqrt;
    var u := Smoothed(s, Clamped(c, ack.sample));
    assert c.baseRtt > 0.0 by {
      BaseIsPositive(c, sqrt);
    }
    SmoothedPositive(c, s, Clamped(c, ack.sample));
    StandardStep(s.window);
  }

  lemma BaseIsPositive(c: Config, sqrt: real -> real)
    requires ValidConfig(c, sqrt)
    ensures c.baseRtt > 0.0
  {
  }
}
