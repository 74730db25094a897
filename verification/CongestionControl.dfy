/**
 * The RSwift congestion controller. Times are microseconds over the reals; the square root
 * is a parameter of which only the defining property is used, and so are clock readings.
 */
module CongestionControl {

  const FS_MIN_CWND: real := 0.1
  const FS_MAX_CWND: real := 14.0
  const FS_RANGE: real := 25.0
  const MIN_WINDOW: real := 0.05
  const MAX_WINDOW: real := 20.0
  const INCREASE_AI: real := 0.5
  const DECREASE_B: real := 0.5
  const DECREASE_B_MAX: real := 0.4
  const GRADIENT_B: real := 0.8
  const DIFF_THRESHOLD: real := 30.0

  ghost predicate IsSqrt(sqrt: real -> real) {
    forall x: real :: x >= 0.0 ==> sqrt(x) >= 0.0 && sqrt(x) * sqrt(x) == x
  }

  function Min(a: real, b: real): real { if a < b then a else b }

  function Max(a: real, b: real): real { if a > b then a else b }

  /** What the constructor fixes for the life of a connection. */
  datatype Config = Config(baseRtt: real, freqGhz: real, fixWindow: bool, fixTarget: bool,
                           fixTargetValue: real, alfa: real, beta: real)

  /** What acknowledgements change. */
  datatype State = State(windowPre: real, window: real, delayNow: real, delayPre: real, targetDelay: real,
                         vagueRtt: real, vagueDiff: real, lastDecrease: nat, acks: nat)

  /** The curve parameters make the middle piece meet both ends. */
  ghost predicate ValidConfig(c: Config, sqrt: real -> real) {
    && IsSqrt(sqrt)
    && c.baseRtt > 0.0 && c.freqGhz >= 0.0
    && sqrt(FS_MIN_CWND) != 0.0 && sqrt(FS_MAX_CWND) != 0.0
    && 1.0 / sqrt(FS_MIN_CWND) != 1.0 / sqrt(FS_MAX_CWND)
    && c.alfa == FS_RANGE / (1.0 / sqrt(FS_MIN_CWND) - 1.0 / sqrt(FS_MAX_CWND))
    && c.beta == -c.alfa / sqrt(FS_MAX_CWND)
  }

  ghost predicate ValidState(c: Config, s: State) {
    && MIN_WINDOW <= s.window <= MAX_WINDOW
    && (c.fixWindow ==> s.windowPre == s.window)
    && (s.acks == 0 ==> s.vagueRtt == s.vagueDiff == s.delayPre == s.delayNow == 0.0)
    && (s.acks > 0 ==> s.vagueRtt >= c.baseRtt && s.delayNow >= c.baseRtt)
  }

  ghost function Initial(window: real, now: nat): State {
    State(window, window, 0.0, 0.0, 0.0, 0.0, 0.0, now, 0)
  }

  // ---------------------------------------------------------------- the specification functions

  ghost function Middle(c: Config, sqrt: real -> real, w: real): real
    requires sqrt(w) != 0.0
  {
    c.alfa / sqrt(w) + c.beta
  }

  /** The delay that the controller aims at for window `w`. */
  ghost function Target(c: Config, sqrt: real -> real, w: real): real
    requires IsSqrt(sqrt)
  {
    if c.fixTarget then c.fixTargetValue
    else if w < FS_MIN_CWND then FS_RANGE + c.baseRtt
    else if w > FS_MAX_CWND then c.baseRtt
    else
      SqrtPositive(sqrt, w);
      c.baseRtt + Max(0.0, Min(Middle(c, sqrt, w), FS_RANGE))
  }

  ghost function Clamped(c: Config, sample: real): real {
    if sample < c.baseRtt then c.baseRtt else sample
  }

  /** A length of time in floating point: division by a zero frequency gives an infinity, or no number for no ticks. */
  datatype Micros = Finite(us: real) | Infinite | NotANumber

  function ToUsec(ticks: int, freqGhz: real): Micros
    requires freqGhz >= 0.0
  {
    if freqGhz > 0.0 then Finite(ticks as real / (freqGhz * 1000.0))
    else if ticks > 0 then Infinite
    else NotANumber
  }

  /** Comparison with a number; it fails if there is none. */
  predicate Exceeds(m: Micros, us: real) {
    m == Infinite || (m.Finite? && m.us > us)
  }

  ghost function ElapsedUs(c: Config, from: nat, to: nat): real
    requires c.freqGhz > 0.0
  {
    ((to - from) as real) / (c.freqGhz * 1000.0)
  }

  /** By the controller's reckoning more than `rtt` has passed. */
  ghost predicate Late(c: Config, from: nat, to: nat, rtt: real)
    requires c.freqGhz >= 0.0
  {
    Exceeds(ToUsec(to - from, c.freqGhz), rtt)
  }

  /** With a positive frequency that is so when the time is longer; with frequency zero after any tick at all. */
  lemma WhenLate(c: Config, from: nat, to: nat, rtt: real)
    requires c.freqGhz >= 0.0
    ensures c.freqGhz > 0.0 ==> (Late(c, from, to, rtt) <==> ElapsedUs(c, from, to) > rtt)
    ensures c.freqGhz == 0.0 ==> (Late(c, from, to, rtt) <==> to > from)
  {
  }

  /** The running averages after one (clamped) delay sample. */
  ghost function Smoothed(s: State, delay: real): State {
    var t := s.(acks := s.acks + 1, delayNow := delay);
    if s.delayPre == 0.0 && s.vagueRtt == 0.0 && s.vagueDiff == 0.0
    then t.(delayPre := delay, vagueRtt := delay, vagueDiff := 0.0)
    else t.(delayPre := s.delayNow,
            vagueRtt := 0.8 * s.vagueRtt + 0.2 * delay,
            vagueDiff := 0.2 * s.vagueDiff + 0.8 * (delay - s.delayNow))
  }

  /** The share of the window that a decrease on a steep delay gradient keeps. */
  ghost function GradientKeep(vagueDiff: real): real
    requires vagueDiff > DIFF_THRESHOLD
  {
    1.0 - Max(DECREASE_B_MAX, GRADIENT_B * ((vagueDiff - DIFF_THRESHOLD) / vagueDiff))
  }

  /** The share of the window that a standard decrease keeps. */
  ghost function StandardKeep(delay: real, target: real): real
    requires delay > 0.0
  {
    Max(1.0 - DECREASE_B * ((delay - target) / delay), 1.0 - DECREASE_B_MAX)
  }

  ghost predicate SteepRise(s: State, target: real) {
    s.vagueDiff > DIFF_THRESHOLD && s.delayNow > target
  }

  ghost predicate SteepFall(s: State, target: real) {
    s.vagueDiff < -DIFF_THRESHOLD && s.delayNow <= target
  }

  /** The next window, not yet clamped, when the averages in `s` are already those of this sample. */
  ghost function NextWindow(s: State, target: real, late: bool): real
    requires s.vagueRtt > 0.0 && s.delayNow > 0.0 && s.window > 0.0
  {
    if SteepRise(s, target) then
      if late then GradientKeep(s.vagueDiff) * s.window else s.window
    else if SteepFall(s, target) then s.window + INCREASE_AI
    else if s.delayNow <= target then
      s.window + if s.window >= 1.0 then INCREASE_AI / s.window else INCREASE_AI
    else
      if late then StandardKeep(s.delayNow, target) * s.window else s.window
  }

  /** A sample up to and including the window update; this window can be read before it is clamped. */
  ghost function Updated(c: Config, sqrt: real -> real, s: State, sample: real, t1: nat): State
    requires ValidConfig(c, sqrt) && ValidState(c, s)
  {
    var u := Smoothed(s, Clamped(c, sample));
    SmoothedPositive(c, s, Clamped(c, sample));
    if c.fixWindow then u
    else
      var target := Target(c, sqrt, u.window);
      u.(windowPre := u.window, targetDelay := target,
         window := NextWindow(u, target, Late(c, u.lastDecrease, t1, u.vagueRtt)))
  }

  ghost function ClampWindow(w: real): real {
    Max(MIN_WINDOW, Min(w, MAX_WINDOW))
  }

  /** The clamp, and the time stamp of a decrease. */
  ghost function Settled(u: State, t2: nat): State {
    var w := ClampWindow(u.window);
    u.(window := w, lastDecrease := if w < u.windowPre then t2 else u.lastDecrease)
  }

  ghost function Acked(c: Config, sqrt: real -> real, s: State, sample: real, t1: nat, t2: nat): State
    requires ValidConfig(c, sqrt) && ValidState(c, s)
  {
    Settled(Updated(c, sqrt, s, sample, t1), t2)
  }

  // ---------------------------------------------------------------- the square root and the target curve

  lemma MulCompare(x: real, y: real, b: real)
    requires b > 0.0
    ensures x < y <==> x * b < y * b
  {
    if x < y {
      assert (y - x) * b > 0.0;
    } else {
      assert (x - y) * b >= 0.0;
    }
  }

  lemma QuotientCompare(a: real, b: real, k: real)
    requires b > 0.0
    ensures a / b < k <==> a < k * b
    ensures k < a / b <==> k * b < a
  {
    assert (a / b) * b == a;
    MulCompare(a / b, k, b);
    MulCompare(k, a / b, b);
  }

  lemma SquaresCompare(x: real, y: real)
    requires 0.0 <= x && 0.0 <= y
    ensures x < y <==> x * x < y * y
  {
    var d := y - x;
    assert y * y == x * x + d * (x + y);
    if x < y {
      assert d * (x + y) > 0.0;
    } else {
      assert -d * (x + y) >= 0.0;
    }
  }

  lemma SqrtPositive(sqrt: real -> real, x: real)
    requires IsSqrt(sqrt)
    ensures x > 0.0 ==> sqrt(x) > 0.0
  {
    if x > 0.0 {
      assert sqrt(x) * sqrt(x) == x;
      SquaresCompare(0.0, sqrt(x));
    }
  }

  lemma SqrtIncreasing(sqrt: real -> real, x: real, y: real)
    requires IsSqrt(sqrt) && 0.0 < x < y
    ensures 0.0 < sqrt(x) < sqrt(y)
  {
    SqrtPositive(sqrt, x);
    SqrtPositive(sqrt, y);
    SquaresCompare(sqrt(x), sqrt(y));
  }

  lemma QuotientFalls(a: real, x: real, y: real)
    requires a >= 0.0 && 0.0 < x <= y
    ensures a / x >= a / y
    ensures a > 0.0 && x < y ==> a / x > a / y
  {
    var q := a / y;
    assert q * y == a;
    QuotientCompare(a, y, 0.0);
    QuotientCompare(a, x, q);
    assert q * (y - x) >= 0.0;
    assert a > 0.0 && x < y ==> q * (y - x) > 0.0;
  }

  /** A valid configuration exists for any square root: the two end points differ, and alfa is positive. */
  lemma CurveIsDefined(sqrt: real -> real)
    requires IsSqrt(sqrt)
    ensures 0.0 < sqrt(FS_MIN_CWND) < sqrt(FS_MAX_CWND)
    ensures 1.0 / sqrt(FS_MIN_CWND) > 1.0 / sqrt(FS_MAX_CWND)
  {
    SqrtIncreasing(sqrt, FS_MIN_CWND, FS_MAX_CWND);
    QuotientFalls(1.0, sqrt(FS_MIN_CWND), sqrt(FS_MAX_CWND));
  }

  lemma QuotientOfSum(alfa: real, x: real, y: real)
    requires x != 0.0 && y != 0.0
    ensures alfa / x + -alfa / y == alfa * (1.0 / x - 1.0 / y)
  {
  }

  /** The three pieces of the target curve join: range at the low end, nothing extra at the high end. */
  lemma CurveJoins(c: Config, sqrt: real -> real)
    requires ValidConfig(c, sqrt)
    ensures c.alfa > 0.0
    ensures Middle(c, sqrt, FS_MIN_CWND) == FS_RANGE
    ensures Middle(c, sqrt, FS_MAX_CWND) == 0.0
  {
    CurveIsDefined(sqrt);
    var d := 1.0 / sqrt(FS_MIN_CWND) - 1.0 / sqrt(FS_MAX_CWND);
    QuotientCompare(FS_RANGE, d, 0.0);
    assert c.alfa * d == FS_RANGE;
    QuotientOfSum(c.alfa, sqrt(FS_MIN_CWND), sqrt(FS_MAX_CWND));
    QuotientOfSum(c.alfa, sqrt(FS_MAX_CWND), sqrt(FS_MAX_CWND));
  }

  lemma MiddleFalls(c: Config, sqrt: real -> real, v: real, w: real)
    requires ValidConfig(c, sqrt) && 0.0 < v <= w
    ensures sqrt(v) > 0.0 && sqrt(w) > 0.0
    ensures Middle(c, sqrt, v) >= Middle(c, sqrt, w)
  {
    CurveJoins(c, sqrt);
    SqrtPositive(sqrt, v);
    SqrtPositive(sqrt, w);
    if v < w {
      SqrtIncreasing(sqrt, v, w);
    }
    QuotientFalls(c.alfa, sqrt(v), sqrt(w));
  }

  /** Between the two ends the inner Min and Max never change the value of the formula. */
  lemma MinMaxAreIdle(c: Config, sqrt: real -> real, w: real)
    requires ValidConfig(c, sqrt) && FS_MIN_CWND <= w <= FS_MAX_CWND
    ensures sqrt(w) > 0.0 && 0.0 <= Middle(c, sqrt, w) <= FS_RANGE
    ensures !c.fixTarget ==> Target(c, sqrt, w) == c.baseRtt + Middle(c, sqrt, w)
  {
    CurveJoins(c, sqrt);
    MiddleFalls(c, sqrt, FS_MIN_CWND, w);
    MiddleFalls(c, sqrt, w, FS_MAX_CWND);
  }

  /** A larger window never gets a larger target, and the target stays within [base, base + range]. */
  lemma TargetFalls(c: Config, sqrt: real -> real, v: real, w: real)
    requires ValidConfig(c, sqrt) && !c.fixTarget && v <= w
    ensures c.baseRtt <= Target(c, sqrt, w) <= Target(c, sqrt, v) <= c.baseRtt + FS_RANGE
  {
    if FS_MIN_CWND <= v && w <= FS_MAX_CWND {
      MinMaxAreIdle(c, sqrt, v);
      MinMaxAreIdle(c, sqrt, w);
      MiddleFalls(c, sqrt, v, w);
    }
  }

  // ---------------------------------------------------------------- one acknowledgement

  lemma SmoothedPositive(c: Config, s: State, delay: real)
    requires c.baseRtt > 0.0 && ValidState(c, s) && delay >= c.baseRtt
    ensures Smoothed(s, delay).window == s.window && Smoothed(s, delay).windowPre == s.windowPre
    ensures Smoothed(s, delay).lastDecrease == s.lastDecrease
    ensures Smoothed(s, delay).vagueRtt >= c.baseRtt && Smoothed(s, delay).delayNow >= c.baseRtt
    ensures s.acks > 0 ==> Smoothed(s, delay).vagueRtt == 0.8 * s.vagueRtt + 0.2 * delay
    ensures s.acks == 0 ==> Smoothed(s, delay).vagueRtt == delay
  {
  }

  lemma GradientKeeps(d: real)
    requires d > DIFF_THRESHOLD
    ensures 0.2 < GradientKeep(d) <= 0.6
  {
    QuotientCompare(d - DIFF_THRESHOLD, d, 1.0);
  }

  lemma StandardKeeps(delay: real, target: real)
    requires 0.0 < delay && target < delay
    ensures 0.6 <= StandardKeep(delay, target) < 1.0
  {
    QuotientCompare(delay - target, delay, 0.0);
  }

  /**
   * How far one update can move the window: up by at most 0.5, down only when more than the smoothed
   * RTT has passed since the last decrease, and then to more than a fifth (in the standard branch to
   * no less than 0.6) of what it was.
   */
  lemma UpdateMoves(s: State, target: real, late: bool)
    requires s.vagueRtt > 0.0 && s.delayNow > 0.0 && s.window > 0.0
    ensures 0.2 * s.window < NextWindow(s, target, late) <= s.window + INCREASE_AI
    ensures NextWindow(s, target, late) < s.window <==> late && s.delayNow > target
    ensures !SteepRise(s, target) ==> NextWindow(s, target, late) >= 0.6 * s.window
    ensures NextWindow(s, target, late) > s.window <==> s.delayNow <= target
  {
    var n, w := NextWindow(s, target, late), s.window;
    if SteepRise(s, target) && late {
      GradientKeeps(s.vagueDiff);
      var k := GradientKeep(s.vagueDiff);
      assert 0.2 * w < k * w;
      assert k * w <= 0.6 * w;
    } else if s.delayNow > target && late {
      StandardKeeps(s.delayNow, target);
      var k := StandardKeep(s.delayNow, target);
      assert 0.6 * w <= k * w;
      assert k * w < 1.0 * w;
    } else if s.delayNow <= target && w >= 1.0 {
      StandardStep(w);
    }
  }

  /** One standard increase of a window of at least one adds between 1 and 1.25 to its square. */
  lemma StandardStep(w: real)
    requires w >= 1.0
    ensures 0.0 < INCREASE_AI / w <= INCREASE_AI
    ensures w * w + 1.0 <= (w + INCREASE_AI / w) * (w + INCREASE_AI / w) <= w * w + 1.25
  {
    var q := INCREASE_AI / w;
    assert q * w == INCREASE_AI;
    QuotientCompare(INCREASE_AI, w, 0.0);
    QuotientCompare(INCREASE_AI, w, INCREASE_AI);
    assert (w + q) * (w + q) == w * w + 2.0 * (q * w) + q * q;
    SquaresCompare(INCREASE_AI, q);
    assert q * q >= 0.0;
  }

  /**
   * Whatever moment another thread reads the window at, it sees a value in (0.01, 20.5] between
   * the update and the clamp, and one in [0.05, 20] otherwise.
   */
  lemma WindowInRange(c: Config, sqrt: real -> real, s: State, sample: real, t1: nat, t2: nat)
    requires ValidConfig(c, sqrt) && ValidState(c, s)
    ensures 0.01 < Updated(c, sqrt, s, sample, t1).window <= 20.5
    ensures ValidState(c, Acked(c, sqrt, s, sample, t1, t2))
  {
    var u := Smoothed(s, Clamped(c, sample));
    SmoothedPositive(c, s, Clamped(c, sample));
    if !c.fixWindow {
      UpdateMoves(u, Target(c, sqrt, u.window), Late(c, u.lastDecrease, t1, u.vagueRtt));
    }
  }

  /** The time stamp of the last decrease moves exactly when an unfixed window strictly falls. */
  lemma DecreaseIsMarked(c: Config, sqrt: real -> real, s: State, sample: real, t1: nat, t2: nat)
    requires ValidConfig(c, sqrt) && ValidState(c, s)
    ensures var r := Acked(c, sqrt, s, sample, t1, t2);
            && r.lastDecrease == (if r.window < s.window then t2 else s.lastDecrease)
            && (r.window < s.window ==> Late(c, s.lastDecrease, t1, r.vagueRtt) && !c.fixWindow)
  {
    var u := Smoothed(s, Clamped(c, sample));
    SmoothedPositive(c, s, Clamped(c, sample));
    if !c.fixWindow {
      UpdateMoves(u, Target(c, sqrt, u.window), Late(c, u.lastDecrease, t1, u.vagueRtt));
    }
  }

  // ---------------------------------------------------------------- the controller object

  lemma GradientChoice(d: real)
    requires d > DIFF_THRESHOLD
    ensures var decrease := GRADIENT_B * ((d - DIFF_THRESHOLD) / d);
            GradientKeep(d) == 1.0 - if decrease < DECREASE_B_MAX then DECREASE_B_MAX else decrease
  {
  }

  lemma StandardChoice(delay: real, target: real)
    requires delay > 0.0
    ensures var normal, least := 1.0 - DECREASE_B * ((delay - target) / delay), 1.0 - DECREASE_B_MAX;
            StandardKeep(delay, target) == if normal > least then normal else least
  {
  }

  /** The fairness factor of the additive increase is one, because both base RTTs are the same. */
  lemma FairnessIsIdle(base: real, rtt: real)
    requires rtt > 0.0
    ensures base + rtt - base != 0.0 && INCREASE_AI * (rtt / (base + rtt - base)) == INCREASE_AI
  {
    assert base + rtt - base == rtt;
  }

  class Rdmacc {
    const baseRtt: real
    const freqGhz: real
    const fixWindow: bool
    const fixTarget: bool
    const fixTargetValue: real
    const sqrt: real -> real
    const alfa: real
    const beta: real
    var windowPre: real
    var window: real
    var delayNow: real
    var delayPre: real
    var targetDelay: real
    var vagueRtt: real
    var vagueDiff: real
    var lastDecrease: nat
    var acks: nat

    ghost function Params(): Config {
      Config(baseRtt, freqGhz, fixWindow, fixTarget, fixTargetValue, alfa, beta)
    }

    ghost function Value(): State
      reads this
    {
      State(windowPre, window, delayNow, delayPre, targetDelay, vagueRtt, vagueDiff, lastDecrease, acks)
    }

    ghost predicate Valid()
      reads this
    {
      ValidConfig(Params(), sqrt) && ValidState(Params(), Value())
    }

    constructor (initWindow: real, baseRtt: real, freqGhz: real, fixWindow: bool, fixTarget: bool,
                 fixTargetValue: real, sqrt: real -> real, now: nat)
      requires IsSqrt(sqrt) && baseRtt > 0.0 && freqGhz >= 0.0 && MIN_WINDOW <= initWindow <= MAX_WINDOW
      ensures Valid() && Value() == Initial(initWindow, now)
      ensures Params() == Config(baseRtt, freqGhz, fixWindow, fixTarget, fixTargetValue, alfa, beta)
      ensures this.sqrt == sqrt
    {
      CurveIsDefined(sqrt);
      this.baseRtt, this.freqGhz := baseRtt, freqGhz;
      this.fixWindow, this.fixTarget, this.fixTargetValue := fixWindow, fixTarget, fixTargetValue;
      this.sqrt := sqrt;
      var curve := FS_RANGE / (1.0 / sqrt(FS_MIN_CWND) - 1.0 / sqrt(FS_MAX_CWND));
      alfa := curve;
      beta := -curve / sqrt(FS_MAX_CWND);
      windowPre, window := initWindow, initWindow;
      delayNow, delayPre, targetDelay, vagueRtt, vagueDiff := 0.0, 0.0, 0.0, 0.0, 0.0;
      acks := 0;
      lastDecrease := now;
    }

    method GetTargetDelay() returns (target: real)
      requires ValidConfig(Params(), sqrt) && window > 0.0
      ensures target == Target(Params(), sqrt, window)
    {
      if fixTarget {
        return fixTargetValue;
      }
      if window < FS_MIN_CWND {
        return FS_RANGE + baseRtt;
      } else if window > FS_MAX_CWND {
        return baseRtt;
      }
      SqrtPositive(sqrt, window);
      target := baseRtt + Max(0.0, Min(alfa / sqrt(window) + beta, FS_RANGE));
    }

    method DecreaseIsDue(now: nat) returns (due: bool)
      requires freqGhz >= 0.0 && lastDecrease <= now
      ensures due <==> Late(Params(), lastDecrease, now, vagueRtt)
    {
      var elapsed := ToUsec(now - lastDecrease, freqGhz);
      due := Exceeds(elapsed, vagueRtt);
    }

    /** Adjusts the window to the averages just computed; `now` is the clock reading it may need. */
    method UpdateWindow(now: nat)
      requires ValidConfig(Params(), sqrt) && window > 0.0 && vagueRtt > 0.0 && delayNow > 0.0
      requires lastDecrease <= now
      modifies this`window, this`windowPre, this`targetDelay
      ensures windowPre == old(window) && targetDelay == Target(Params(), sqrt, old(window))
      ensures window
              == old(NextWindow(Value(), Target(Params(), sqrt, window), Late(Params(), lastDecrease, now, vagueRtt)))
    {
      hide Target, IsSqrt, Late, GradientKeep, StandardKeep;
      windowPre := window;
      targetDelay := GetTargetDelay();
      var threshold := if acks <= 3 then FS_RANGE else targetDelay;
      threshold := DIFF_THRESHOLD;
      var current := GetTargetDelay();
      if vagueDiff > threshold && delayNow > current {
        var due := DecreaseIsDue(now);
        if due {
          GradientChoice(vagueDiff);
          var diffDecrease := GRADIENT_B * ((vagueDiff - threshold) / vagueDiff);
          if diffDecrease < DECREASE_B_MAX {
            window := (1.0 - DECREASE_B_MAX) * window;
          } else {
            window := (1.0 - diffDecrease) * window;
          }
        }
        return;
      }
      if vagueDiff < -threshold && delayNow <= current {
        window := window + INCREASE_AI;
        return;
      }
      if delayNow <= targetDelay {
        FairnessIsIdle(baseRtt, vagueRtt);
        var step := INCREASE_AI * (vagueRtt / (baseRtt + vagueRtt - baseRtt));
        if window >= 1.0 {
          window := window + step / window;
        } else {
          window := window + step;
        }
      } else {
        var due := DecreaseIsDue(now);
        if due {
          StandardChoice(delayNow, targetDelay);
          var normal := 1.0 - DECREASE_B * ((delayNow - targetDelay) / delayNow);
          var least := 1.0 - DECREASE_B_MAX;
          window := (if normal > least then normal else least) * window;
        }
      }
    }

    /** The running averages after one delay sample. */
    method Average(delay: real)
      modifies this`acks, this`delayPre, this`vagueRtt, this`vagueDiff, this`delayNow
      ensures Value() == old(Smoothed(Value(), delay))
    {
      acks := acks + 1;
      if delayPre == 0.0 && vagueRtt == 0.0 && vagueDiff == 0.0 {
        delayPre, vagueRtt, vagueDiff := delay, delay, 0.0;
      } else {
        delayPre := delayNow;
        vagueRtt := 0.8 * vagueRtt + 0.2 * delay;
        vagueDiff := 0.2 * vagueDiff + 0.8 * (delay - delayPre);
      }
      delayNow := delay;
    }

    /** Takes in one RTT sample; t1 and t2 are the clock readings of the update and of the decrease mark. */
    method ReceiveAck(sample: real, t1: nat, t2: nat)
      requires Valid() && lastDecrease <= t1 <= t2
      modifies this
      ensures Valid() && Value() == old(Acked(Params(), sqrt, Value(), sample, t1, t2))
    {
      hide Smoothed, NextWindow, Target, Late, IsSqrt;
      WindowInRange(Params(), sqrt, Value(), sample, t1, t2);
      SmoothedPositive(Params(), Value(), Clamped(Params(), sample));
      var delay := sample;
      if delay < baseRtt {
        delay := baseRtt;
      }
      Average(delay);
      if !fixWindow {
        UpdateWindow(t1);
      }
      if window < MIN_WINDOW {
        window := MIN_WINDOW;
      } else if window > MAX_WINDOW {
        window := MAX_WINDOW;
      }
      if window < windowPre {
        lastDecrease := t2;
      }
    }
  }
}
