/** What the congestion controller answers to particular signals, in numbers. */
module CongestionResponses {
  import opened CongestionControl
  import opened CongestionRuns

  // ---------------------------------------------------------------- the shape of the target curve

  /** Between its ends the target falls with one over the square root of the window. */
  lemma TargetIsInverseSqrt(c: Config, sqrt: real -> real, v: real, w: real)
    requires ValidConfig(c, sqrt) && !c.fixTarget && 0.1 <= v <= 14.0 && 0.1 <= w <= 14.0
    ensures sqrt(v) > 0.0 && sqrt(w) > 0.0 && sqrt(0.1) > 0.0 && sqrt(14.0) > 0.0
    ensures (Target(c, sqrt, v) - Target(c, sqrt, w)) * (1.0 / sqrt(0.1) - 1.0 / sqrt(14.0))
            == 25.0 * (1.0 / sqrt(v) - 1.0 / sqrt(w))
    ensures Target(c, sqrt, 0.1) == c.baseRtt + 25.0 && Target(c, sqrt, 14.0) == c.baseRtt
  {
    hide Target, IsSqrt;
    MinMaxAreIdle(c, sqrt, v);
    MinMaxAreIdle(c, sqrt, w);
    MinMaxAreIdle(c, sqrt, 0.1);
    MinMaxAreIdle(c, sqrt, 14.0);
    CurveJoins(c, sqrt);
    var d, x, y := 1.0 / sqrt(0.1) - 1.0 / sqrt(14.0), 1.0 / sqrt(v), 1.0 / sqrt(w);
    assert d != 0.0;
    assert c.alfa * d == 25.0;
    QuotientOfSum(c.alfa, sqrt(v), sqrt(w));
    assert Target(c, sqrt, v) - Target(c, sqrt, w) == c.alfa * (x - y);
    Exchange(c.alfa, x - y, d);
  }

  lemma Exchange(a: real, x: real, d: real)
    ensures a * x * d == a * d * x
  {
  }

  // ---------------------------------------------------------------- the average of the RTT differences

  ghost predicate Level(c: Config, acks: seq<Ack>, delay: real) {
    forall i :: 0 <= i < |acks| ==> Clamped(c, acks[i].sample) == delay
  }

  /** After samples that are all the same the averages are that sample and zero. */
  lemma {:induction false} LevelHistory(c: Config, sqrt: real -> real, window: real, start: nat, acks: seq<Ack>,
                                        delay: real)
    requires ValidConfig(c, sqrt) && MIN_WINDOW <= window <= MAX_WINDOW && acks != [] && Level(c, acks, delay)
    ensures var s := After(c, sqrt, Initial(window, start), acks);
            s.vagueDiff == 0.0 && s.vagueRtt == delay && s.delayNow == delay
  {
    hide IsSqrt;
    var s, init, ack := Initial(window, start), acks[..|acks| - 1], acks[|acks| - 1];
    InitialIsValid(c, window, start);
    AfterStep(c, sqrt, s, acks);
    if init != [] {
      LevelHistory(c, sqrt, window, start, init, delay);
    }
    AckAverages(c, sqrt, After(c, sqrt, s, init), ack);
  }

  /** The averages after one acknowledgement that is not the first. */
  lemma AckAverages(c: Config, sqrt: real -> real, s: State, ack: Ack)
    requires ValidConfig(c, sqrt) && ValidState(c, s)
    ensures var r, x := Acked(c, sqrt, s, ack.sample, ack.t1, ack.t2), Clamped(c, ack.sample);
            && x == (if ack.sample < c.baseRtt then c.baseRtt else ack.sample)
            && r.delayNow == x
            && r.vagueRtt == (if s.acks == 0 then x else s.vagueRtt + 0.2 * (x - s.vagueRtt))
            && r.vagueDiff == (if s.acks == 0 then 0.0 else 0.2 * s.vagueDiff + 0.8 * (x - s.delayNow))
  {
    hide Target, IsSqrt, NextWindow, Late;
  }

  ghost function Fifth(n: nat): real {
    if n == 0 then 1.0 else 0.2 * Fifth(n - 1)
  }

  /** Each further equal sample leaves a fifth of the difference. */
  lemma {:induction false} DifferenceFades(c: Config, sqrt: real -> real, s: State, acks: seq<Ack>)
    requires ValidConfig(c, sqrt) && ValidState(c, s) && s.acks > 0 && Level(c, acks, s.delayNow)
    ensures var r := After(c, sqrt, s, acks); r.vagueDiff == s.vagueDiff * Fifth(|acks|) && r.delayNow == s.delayNow
  {
    hide ValidConfig, IsSqrt, Acked, ValidState;
    if acks != [] {
      var n := |acks| - 1;
      DifferenceFades(c, sqrt, s, acks[..n]);
      AfterStep(c, sqrt, s, acks);
      AckAverages(c, sqrt, After(c, sqrt, s, acks[..n]), acks[n]);
    }
  }

  /** Over a whole run: a jump after a level history shows as eight tenths of it, and then fades by fifths. */
  lemma JumpShows(c: Config, sqrt: real -> real, window: real, start: nat, level: seq<Ack>, jump: Ack, more: seq<Ack>,
                  delay: real, height: real)
    requires ValidConfig(c, sqrt) && MIN_WINDOW <= window <= MAX_WINDOW
    requires level != [] && Level(c, level, delay) && Clamped(c, jump.sample) == delay + height
    requires Level(c, more, delay + height)
    ensures var s := Initial(window, start);
            && After(c, sqrt, s, level + [jump]).vagueDiff == 0.8 * height
            && After(c, sqrt, s, level + [jump] + more).vagueDiff == 0.8 * height * Fifth(|more|)
  {
    hide ValidConfig, IsSqrt, Acked, ValidState, Fifth, After, Level;
    var s, upTo := Initial(window, start), level + [jump];
    InitialIsValid(c, window, start);
    LevelHistory(c, sqrt, window, start, level, delay);
    assert upTo[..|level|] == level;
    AfterStep(c, sqrt, s, upTo);
    AckAverages(c, sqrt, After(c, sqrt, s, level), jump);
    DifferenceFades(c, sqrt, After(c, sqrt, s, upTo), more);
    AfterConcat(c, sqrt, s, upTo, more);
  }

  lemma {:induction false} AfterConcat(c: Config, sqrt: real -> real, s: State, first: seq<Ack>, second: seq<Ack>)
    requires ValidConfig(c, sqrt) && ValidState(c, s)
    ensures After(c, sqrt, s, first + second) == After(c, sqrt, After(c, sqrt, s, first), second)
  {
    hide ValidConfig, IsSqrt, Acked, ValidState;
    if second == [] {
      assert first + second == first;
    } else {
      var n := |second| - 1;
      AfterConcat(c, sqrt, s, first, second[..n]);
      assert (first + second)[..|first| + n] == first + second[..n];
      AfterStep(c, sqrt, s, first + second);
      AfterStep(c, sqrt, After(c, sqrt, s, first), second);
    }
  }

  // ---------------------------------------------------------------- what the window does

  /** The share of the window that a late acknowledgement above target keeps after a rise from a level history. */
  ghost function Keeps(delay: real, height: real, target: real): real
    requires delay > 0.0 && height > -delay
  {
    if height > 75.0 then 0.2 + 30.0 / height
    else if height > 37.5 then 0.6
    else Max(0.6, 0.5 + 0.5 * (target / (delay + height)))
  }

  /** A rise is answered as a steep one iff it is more than 37.5 microseconds; these are the answers. */
  lemma RiseIsAnswered(c: Config, sqrt: real -> real, s: State, ack: Ack, height: real)
    requires ValidConfig(c, sqrt) && ValidState(c, s) && !c.fixWindow && s.acks > 0 && s.vagueDiff == 0.0
    requires Clamped(c, ack.sample) == s.delayNow + height && s.delayNow + height > Target(c, sqrt, s.window)
    ensures var u, target := Updated(c, sqrt, s, ack.sample, ack.t1), Target(c, sqrt, s.window);
            && (SteepRise(u, target) <==> height > 37.5)
            && u.window == if Late(c, s.lastDecrease, ack.t1, 0.8 * s.vagueRtt + 0.2 * (s.delayNow + height))
                           then Keeps(s.delayNow, height, target) * s.window else s.window
  {
    hide Target, IsSqrt, Late, GradientKeep, StandardKeep;
    var target := Target(c, sqrt, s.window);
    if height > 37.5 {
      SteepKeep(height);
    } else {
      StandardShare(s.delayNow + height, target);
    }
  }

  /** The same at the end of a run: a rise after samples that were all the same. */
  lemma RiseAfterLevel(c: Config, sqrt: real -> real, window: real, start: nat, level: seq<Ack>, jump: Ack, delay: real,
                       height: real)
    requires ValidConfig(c, sqrt) && MIN_WINDOW <= window <= MAX_WINDOW && !c.fixWindow
    requires level != [] && Level(c, level, delay) && Clamped(c, jump.sample) == delay + height
    requires delay + height > Target(c, sqrt, After(c, sqrt, Initial(window, start), level).window)
    ensures delay > 0.0
    ensures var s := After(c, sqrt, Initial(window, start), level);
            var u, target := Updated(c, sqrt, s, jump.sample, jump.t1), Target(c, sqrt, s.window);
            && (SteepRise(u, target) <==> height > 37.5)
            && u.window == if Late(c, s.lastDecrease, jump.t1, delay + 0.2 * height)
                           then Keeps(delay, height, target) * s.window else s.window
  {
    hide Target, IsSqrt, Late, Updated, Keeps;
    InitialIsValid(c, window, start);
    LevelHistory(c, sqrt, window, start, level, delay);
    RiseIsAnswered(c, sqrt, After(c, sqrt, Initial(window, start), level), jump, height);
  }

  lemma SteepKeep(height: real)
    requires height > 37.5
    ensures GradientKeep(0.8 * height) == if height > 75.0 then 0.2 + 30.0 / height else 0.6
  {
    var d, q, p := 0.8 * height, 30.0 / height, 37.5 / height;
    assert q * height == 30.0 && p * height == 37.5;
    QuotientIs(30.0, height, 0.8 * p);
    assert p * d == 0.8 * (p * height);
    assert (1.0 - p) * d == d - p * d;
    QuotientIs(d - 30.0, d, 1.0 - p);
    QuotientCompare(37.5, height, 0.5);
  }

  lemma QuotientIs(a: real, b: real, x: real)
    requires b > 0.0 && x * b == a
    ensures a / b == x
  {
    QuotientCompare(a, b, x);
  }

  lemma StandardShare(delay: real, target: real)
    requires delay > 0.0
    ensures StandardKeep(delay, target) == Max(0.6, 0.5 + 0.5 * (target / delay))
  {
    var q := target / delay;
    assert q * delay == target;
    assert (1.0 - q) * delay == delay - target;
    QuotientIs(delay - target, delay, 1.0 - q);
  }

  /** A fall to or below target by more than 37.5 microseconds adds a full half segment, whatever the window. */
  lemma FallIsAnswered(c: Config, sqrt: real -> real, s: State, ack: Ack, height: real)
    requires ValidConfig(c, sqrt) && ValidState(c, s) && !c.fixWindow && s.acks > 0 && s.vagueDiff == 0.0
    requires Clamped(c, ack.sample) == s.delayNow - height && s.delayNow - height <= Target(c, sqrt, s.window)
    ensures Updated(c, sqrt, s, ack.sample, ack.t1).window
            == s.window + if height > 37.5 || s.window < 1.0 then 0.5 else 0.5 / s.window
  {
    hide Target, IsSqrt, Late, GradientKeep, StandardKeep;
  }

  /** The clamp changes nothing within its bounds, and ends at the nearer bound outside them. */
  lemma ClampIsNearest(c: Config, sqrt: real -> real, s: State, ack: Ack)
    requires ValidConfig(c, sqrt) && ValidState(c, s)
    ensures var v, w := Updated(c, sqrt, s, ack.sample, ack.t1).window,
                        Acked(c, sqrt, s, ack.sample, ack.t1, ack.t2).window;
            && (0.05 <= v <= 20.0 ==> w == v) && (v < 0.05 ==> w == 0.05) && (v > 20.0 ==> w == 20.0)
  {
    hide Target, IsSqrt, Late, Updated;
  }

  // ---------------------------------------------------------------- ticks

  /** k decreases take more than k base RTTs, counted in clock ticks: a thousand a microsecond for each gigahertz. */
  lemma KDecreasesInTicks(c: Config, sqrt: real -> real, window: real, start: nat, acks: seq<Ack>)
    requires ValidConfig(c, sqrt) && MIN_WINDOW <= window <= MAX_WINDOW && Monotone(start, acks) && c.freqGhz > 0.0
    ensures var k := Decreases(c, sqrt, Initial(window, start), acks);
            k > 0 ==> (EndTime(start, acks) - start) as real > k as real * c.baseRtt * (1000.0 * c.freqGhz)
  {
    hide ValidConfig, IsSqrt, Decreases;
    var k := Decreases(c, sqrt, Initial(window, start), acks);
    KDecreasesTakeKBaseRtts(c, sqrt, window, start, acks);
    if k > 0 {
      QuotientCompare((EndTime(start, acks) - start) as real, c.freqGhz * 1000.0, k as real * c.baseRtt);
    }
  }
}
