/** Rate discovery of the adaptive pool: options, dispatch intervals and the AIMD laws, over reals. */
module AdaptiveRate {
  import opened Lookups

  const MILLISECOND := 1_000_000

  datatype Options = Options(
    initialQPS: real, minQPS: real, maxQPS: real,
    increase: real, decrease: real, cooldown: int, maxAttempts: int)

  /** A float64 as far as validation tells them apart. */
  datatype Number = Finite(value: real) | Infinite(negative: bool) | NotANumber

  /** What a caller asks for. */
  datatype Settings = Settings(
    initialQPS: Number, minQPS: Number, maxQPS: Number,
    increase: Number, decrease: Number, cooldown: int, maxAttempts: int)

  datatype OptionError =
    | BadInitial | BadMinimum | BadMaximum | MaximumBelowMinimum | InitialOutOfRange
    | BadIncrease | BadDecrease | NegativeCooldown | BadAttempts

  /** The policies under which a pool may run. */
  predicate Valid(o: Options) {
    && 0.0 < o.minQPS <= o.initialQPS <= o.maxQPS
    && 0.0 < o.increase
    && 0.0 < o.decrease < 1.0
    && 0 <= o.cooldown
    && 0 < o.maxAttempts
  }

  predicate AllFinite(s: Settings) {
    s.initialQPS.Finite? && s.minQPS.Finite? && s.maxQPS.Finite? && s.increase.Finite? && s.decrease.Finite?
  }

  function PolicyOf(s: Settings): Options
    requires AllFinite(s)
  {
    Options(s.initialQPS.value, s.minQPS.value, s.maxQPS.value, s.increase.value, s.decrease.value, s.cooldown,
        s.maxAttempts)
  }

  predicate Acceptable(s: Settings) {
    AllFinite(s) && Valid(PolicyOf(s))
  }

  predicate Positive(x: Number) {
    x.Finite? && x.value > 0.0
  }

  /** The first complaint about a policy, in the order the constructor looks for them. */
  function Validate(s: Settings): (complaint: Option<OptionError>)
    ensures complaint.None? <==> Acceptable(s)
  {
    if !Positive(s.initialQPS) then Some(BadInitial)
    else if !Positive(s.minQPS) then Some(BadMinimum)
    else if !Positive(s.maxQPS) then Some(BadMaximum)
    else if s.maxQPS.value < s.minQPS.value then Some(MaximumBelowMinimum)
    else if s.initialQPS.value < s.minQPS.value || s.initialQPS.value > s.maxQPS.value then Some(InitialOutOfRange)
    else if !Positive(s.increase) then Some(BadIncrease)
    else if !Positive(s.decrease) || s.decrease.value >= 1.0 then Some(BadDecrease)
    else if s.cooldown < 0 then Some(NegativeCooldown)
    else if s.maxAttempts <= 0 then Some(BadAttempts)
    else None
  }

  /** What each complaint is about. */
  predicate Deserves(s: Settings, e: OptionError) {
    match e
    case BadInitial => !Positive(s.initialQPS)
    case BadMinimum => !Positive(s.minQPS)
    case BadMaximum => !Positive(s.maxQPS)
    case MaximumBelowMinimum => Positive(s.minQPS) && Positive(s.maxQPS) && s.maxQPS.value < s.minQPS.value
    case InitialOutOfRange =>
      && Positive(s.initialQPS) && Positive(s.minQPS) && Positive(s.maxQPS)
      && !(s.minQPS.value <= s.initialQPS.value <= s.maxQPS.value)
    case BadIncrease => !Positive(s.increase)
    case BadDecrease => Positive(s.decrease) ==> s.decrease.value >= 1.0
    case NegativeCooldown => s.cooldown < 0
    case BadAttempts => s.maxAttempts <= 0
  }

  const COMPLAINTS := [
    BadInitial, BadMinimum, BadMaximum, MaximumBelowMinimum, InitialOutOfRange,
    BadIncrease, BadDecrease, NegativeCooldown, BadAttempts]

  /** Of all the complaints a policy deserves, the one made is the first. */
  lemma FirstComplaint(s: Settings)
    ensures Validate(s).None? <==> forall e :: e in COMPLAINTS ==> !Deserves(s, e)
    ensures Validate(s).Some? ==>
              exists i :: 0 <= i < |COMPLAINTS| && COMPLAINTS[i] == Validate(s).value && Deserves(s, COMPLAINTS[i])
                          && forall j :: 0 <= j < i ==> !Deserves(s, COMPLAINTS[j])
  {
    var made := Validate(s);
    if made.Some? {
      var i := Place(made.value);
      assert COMPLAINTS[i] == made.value && Deserves(s, COMPLAINTS[i]);
    }
  }

  function Place(e: OptionError): (i: nat)
    ensures i < |COMPLAINTS| && COMPLAINTS[i] == e
  {
    match e
    case BadInitial => 0
    case BadMinimum => 1
    case BadMaximum => 2
    case MaximumBelowMinimum => 3
    case InitialOutOfRange => 4
    case BadIncrease => 5
    case BadDecrease => 6
    case NegativeCooldown => 7
    case BadAttempts => 8
  }

  // Products and quotients are named so that a proof can hide them; what is needed of them is below.

  function Times(x: real, y: real): real {
    x * y
  }

  function Over(x: real, y: real): real
    requires y != 0.0
  {
    x / y
  }

  lemma TimesMonotone(a: real, b: real, c: real)
    requires a <= b && 0.0 <= c
    ensures Times(a, c) <= Times(b, c) && Times(c, a) <= Times(c, b)
  {
    assert a * c <= b * c;
  }

  lemma TimesStrict(a: real, b: real, c: real)
    requires a < b && 0.0 < c
    ensures Times(a, c) < Times(b, c)
  {
    assert a * c < b * c;
  }

  lemma TimesUnits(x: real)
    ensures Times(0.0, x) == 0.0 && Times(1.0, x) == x
  {
  }

  lemma TimesCommute(x: real, y: real)
    ensures Times(x, y) == Times(y, x)
  {
  }

  lemma Shrink(x: real, d: real)
    requires 0.0 < x && 0.0 < d < 1.0
    ensures 0.0 < Times(x, d) < x
  {
    hide Times;
    TimesUnits(x);
    TimesStrict(0.0, d, x);
    TimesStrict(d, 1.0, x);
    TimesCommute(x, d);
  }

  lemma OverTimes(a: real, b: real)
    requires 0.0 < b
    ensures Times(Over(a, b), b) == a
  {
  }

  lemma OverPositive(a: real, b: real)
    requires 0.0 < a && 0.0 < b
    ensures 0.0 < Over(a, b)
  {
  }

  /** Dividing by a larger number gives a smaller one. */
  lemma OverAntitone(c: real, low: real, high: real)
    requires 0.0 < c && 0.0 < low <= high
    ensures Over(c, high) <= Over(c, low)
  {
    hide Times, Over;
    var x, y := Over(c, high), Over(c, low);
    OverTimes(c, high);
    OverTimes(c, low);
    OverPositive(c, high);
    if y < x {
      TimesStrict(y, x, low);
      TimesMonotone(low, high, x);
    }
  }

  function Max(x: real, y: real): real {
    if x >= y then x else y
  }

  function Min(x: real, y: real): real {
    if x <= y then x else y
  }

  /** Nanoseconds between two dispatches at a learned rate, never below one. */
  function IntervalForQPS(qps: real): (interval: int)
    requires qps > 0.0
    ensures interval >= 1
  {
    var whole := Over(1_000_000_000.0, qps).Floor;
    if whole < 1 then 1 else whole
  }

  /** A faster upstream is never paced more slowly. */
  lemma IntervalAntitone(slow: real, fast: real)
    requires 0.0 < slow <= fast
    ensures IntervalForQPS(fast) <= IntervalForQPS(slow)
  {
    OverAntitone(1_000_000_000.0, slow, fast);
    FloorMonotone(Over(1_000_000_000.0, fast), Over(1_000_000_000.0, slow));
  }

  lemma FloorMonotone(x: real, y: real)
    requires x <= y
    ensures x.Floor <= y.Floor
  {
  }

  /**
   * Dispatches spaced this way fit the rate, unless the spacing is the least one; and it is the widest that is
   * whole.
   */
  lemma IntervalMeaning(qps: real)
    requires qps > 0.0
    ensures IntervalForQPS(qps) > 1 ==> Times(IntervalForQPS(qps) as real, qps) <= 1_000_000_000.0
    ensures 1_000_000_000.0 < Times(IntervalForQPS(qps) as real + 1.0, qps)
  {
    hide Times, Over;
    var x := Over(1_000_000_000.0, qps);
    OverTimes(1_000_000_000.0, qps);
    TimesStrict(x, IntervalForQPS(qps) as real + 1.0, qps);
    if IntervalForQPS(qps) > 1 {
      TimesMonotone(IntervalForQPS(qps) as real, x, qps);
    }
  }

  predicate InRange(o: Options, rate: real) {
    o.minQPS <= rate <= o.maxQPS
  }

  /** Additive increase after one success. */
  function Raised(o: Options, rate: real): (next: real)
    requires Valid(o) && InRange(o, rate)
    ensures InRange(o, next) && rate <= next
  {
    OverPositive(o.increase, rate);
    Min(o.maxQPS, rate + Over(o.increase, rate))
  }

  /** Multiplicative decrease after one failure. */
  function Lowered(o: Options, rate: real): (next: real)
    requires Valid(o) && InRange(o, rate)
    ensures InRange(o, next) && next <= rate
  {
    hide Times;
    Shrink(rate, o.decrease);
    Max(o.minQPS, Times(rate, o.decrease))
  }

  function RaisedTimes(o: Options, rate: real, n: nat): (final: real)
    requires Valid(o) && InRange(o, rate)
    ensures InRange(o, final) && rate <= final
  {
    hide Raised;
    if n == 0 then rate else Raised(o, RaisedTimes(o, rate, n - 1))
  }

  function LoweredTimes(o: Options, rate: real, n: nat): (final: real)
    requires Valid(o) && InRange(o, rate)
    ensures InRange(o, final)
  {
    hide Lowered;
    if n == 0 then rate else Lowered(o, LoweredTimes(o, rate, n - 1))
  }

  /** n steps of one size, added up. */
  function Scaled(n: nat, step: real): real {
    if n == 0 then 0.0 else Scaled(n - 1, step) + step
  }

  lemma {:induction false} ScaledIsProduct(n: nat, step: real)
    ensures Scaled(n, step) == Times(n as real, step)
  {
    if n > 0 {
      ScaledIsProduct(n - 1, step);
      assert n as real * step == (n - 1) as real * step + step;
    }
  }

  /** The arithmetic of one step: (r + s)² >= r² + 2·s·r. */
  lemma SquareStep(r: real, s: real)
    ensures Times(r + s, r + s) >= Times(r, r) + 2.0 * Times(s, r)
  {
    assert (r + s) * (r + s) == r * r + 2.0 * (s * r) + s * s;
  }

  lemma RaiseGainsSquare(o: Options, rate: real)
    requires Valid(o) && InRange(o, rate)
    ensures Raised(o, rate) == o.maxQPS || Times(Raised(o, rate), Raised(o, rate)) >= Times(rate, rate)
        + 2.0 * o.increase
  {
    hide Times, Over;
    OverTimes(o.increase, rate);
    SquareStep(rate, Over(o.increase, rate));
  }

  /** n successes gain at least 2·n·increase in the square of the rate, until the ceiling holds it. */
  lemma {:induction false} SuccessesGrowSquare(o: Options, rate: real, n: nat)
    requires Valid(o) && InRange(o, rate)
    ensures var final := RaisedTimes(o, rate, n);
            final == o.maxQPS || Times(final, final) >= Times(rate, rate) + Scaled(n, 2.0 * o.increase)
  {
    hide Times, Raised;
    if n > 0 {
      SuccessesGrowSquare(o, rate, n - 1);
      RaiseGainsSquare(o, RaisedTimes(o, rate, n - 1));
    }
  }

  /** The ceiling is reached after (max² − rate²) / (2·increase) successes, and kept. */
  lemma CeilingReached(o: Options, rate: real, n: nat)
    requires Valid(o) && InRange(o, rate)
    requires Times(n as real, 2.0 * o.increase) >= Times(o.maxQPS, o.maxQPS) - Times(rate, rate)
    ensures RaisedTimes(o, rate, n) == o.maxQPS
  {
    hide RaisedTimes, Scaled, Times;
    SuccessesGrowSquare(o, rate, n);
    ScaledIsProduct(n, 2.0 * o.increase);
    var final := RaisedTimes(o, rate, n);
    if final < o.maxQPS {
      TimesMonotone(final, o.maxQPS, final);
      TimesStrict(final, o.maxQPS, o.maxQPS);
    }
  }

  /** The least whole number that is not below x. */
  function Ceiling(x: real): (n: nat)
    ensures n as real >= x && (n > 0 ==> (n - 1) as real < x)
  {
    if x <= 0.0 then 0 else if x.Floor as real == x then x.Floor else x.Floor + 1
  }

  /** So ceil((max² − rate²) / (2·increase)) successes are enough. */
  lemma CeilingWithin(o: Options, rate: real)
    requires Valid(o) && InRange(o, rate)
    ensures var n := Ceiling(Over(Times(o.maxQPS, o.maxQPS) - Times(rate, rate), 2.0 * o.increase));
            RaisedTimes(o, rate, n) == o.maxQPS
  {
    hide Times, Over, Ceiling, RaisedTimes;
    var gap, step := Times(o.maxQPS, o.maxQPS) - Times(rate, rate), 2.0 * o.increase;
    var n := Ceiling(Over(gap, step));
    OverTimes(gap, step);
    TimesMonotone(Over(gap, step), n as real, step);
    CeilingReached(o, rate, n);
  }

  lemma {:induction false} SuccessesStepBound(o: Options, rate: real, n: nat)
    requires Valid(o) && InRange(o, rate)
    ensures RaisedTimes(o, rate, n) <= rate + Scaled(n, Over(o.increase, rate))
  {
    hide Over;
    if n > 0 {
      SuccessesStepBound(o, rate, n - 1);
      OverAntitone(o.increase, rate, RaisedTimes(o, rate, n - 1));
    }
  }

  /** A second's worth of successes, at the current rate, raises the rate by at most the configured increase. */
  lemma SecondOfSuccesses(o: Options, rate: real, k: nat)
    requires Valid(o) && InRange(o, rate)
    requires k as real <= rate
    ensures RaisedTimes(o, rate, k) <= rate + o.increase
  {
    hide RaisedTimes, Scaled, Times, Over;
    var step := Over(o.increase, rate);
    SuccessesStepBound(o, rate, k);
    ScaledIsProduct(k, step);
    OverPositive(o.increase, rate);
    OverTimes(o.increase, rate);
    TimesMonotone(k as real, rate, step);
    TimesCommute(rate, step);
  }

  /** rate · dⁿ, the rate after n failures if there were no floor. */
  function Decayed(d: real, rate: real, n: nat): (decayed: real)
    requires 0.0 < d < 1.0 && 0.0 < rate
    ensures 0.0 < decayed
  {
    hide Times;
    if n == 0 then rate else
      Shrink(Decayed(d, rate, n - 1), d);
      Times(Decayed(d, rate, n - 1), d)
  }

  /** n failures give exactly the geometric decay, stopped at the floor. */
  lemma {:induction false} FailuresAreGeometric(o: Options, rate: real, n: nat)
    requires Valid(o) && InRange(o, rate)
    ensures LoweredTimes(o, rate, n) == Max(o.minQPS, Decayed(o.decrease, rate, n))
  {
    hide Times, Lowered;
    if n > 0 {
      FailuresAreGeometric(o, rate, n - 1);
      LowerFloored(o, Decayed(o.decrease, rate, n - 1));
    }
  }

  /** Lowering the floored value is flooring the lowered one. */
  lemma LowerFloored(o: Options, rate: real)
    requires Valid(o) && InRange(o, Max(o.minQPS, rate))
    ensures Lowered(o, Max(o.minQPS, rate)) == Max(o.minQPS, Times(rate, o.decrease))
  {
    hide Times;
    if o.minQPS >= rate {
      TimesMonotone(rate, o.minQPS, o.decrease);
      Shrink(o.minQPS, o.decrease);
    }
  }

  lemma CarryRaw(d: real, e: real, w: real)
    requires 0.0 < d && 0.0 < e && d + e == 1.0 && d <= w
    ensures d * (w + e) <= w
  {
    assert w * (d + e) == w * d + w * e;
    assert d * e <= w * e;
  }

  lemma Regroup(p: real, d: real, v: real)
    ensures Times(Times(p, d), v) == Times(p, Times(d, v))
  {
    assert (p * d) * v == p * (d * v);
  }

  lemma BernoulliCarry(d: real, e: real, p: real, w: real)
    requires 0.0 < p && 0.0 < d && 0.0 < e && d + e == 1.0 && d <= w
    ensures Times(Times(p, d), w + e) <= Times(p, w)
  {
    assert Times(d, w + e) <= w by { CarryRaw(d, e, w); }
    hide Times;
    Regroup(p, d, w + e);
    TimesMonotone(Times(d, w + e), w, p);
  }

  lemma {:induction false} ScaledNonNegative(n: nat, step: real)
    requires 0.0 <= step
    ensures 0.0 <= Scaled(n, step)
  {
    if n > 0 { ScaledNonNegative(n - 1, step); }
  }

  /** Bernoulli's inequality for the decay, cleared of divisions. */
  lemma {:induction false} DecayBernoulli(d: real, e: real, rate: real, n: nat)
    requires 0.0 < d && 0.0 < e && d + e == 1.0 && 0.0 < rate
    ensures Times(Decayed(d, rate, n), d + Scaled(n, e)) <= Times(rate, d)
  {
    hide Times;
    if n > 0 {
      DecayBernoulli(d, e, rate, n - 1);
      ScaledNonNegative(n - 1, e);
      BernoulliCarry(d, e, Decayed(d, rate, n - 1), d + Scaled(n - 1, e));
      assert d + Scaled(n, e) == d + Scaled(n - 1, e) + e;
    }
  }

  /** After enough failures, an explicit number of them, the rate is the floor. */
  lemma FloorReached(o: Options, rate: real, n: nat)
    requires Valid(o) && InRange(o, rate)
    requires Times(o.decrease + Times(n as real, 1.0 - o.decrease), o.minQPS) >= Times(rate, o.decrease)
    ensures LoweredTimes(o, rate, n) == o.minQPS
  {
    hide Times, Decayed, Scaled, LoweredTimes;
    var d, e := o.decrease, 1.0 - o.decrease;
    FailuresAreGeometric(o, rate, n);
    DecayBernoulli(d, e, rate, n);
    ScaledIsProduct(n, e);
    ScaledNonNegative(n, e);
    var w := d + Scaled(n, e);
    if Decayed(d, rate, n) > o.minQPS {
      TimesStrict(o.minQPS, Decayed(d, rate, n), w);
      TimesCommute(w, o.minQPS);
    }
  }

  /** So ceil(rate·d / (min·(1 − d))) failures are enough. */
  lemma FloorWithin(o: Options, rate: real)
    requires Valid(o) && InRange(o, rate)
    ensures 0.0 < Times(1.0 - o.decrease, o.minQPS)
    ensures LoweredTimes(o, rate, Ceiling(Over(Times(rate, o.decrease), Times(1.0 - o.decrease, o.minQPS)))) == o.minQPS
  {
    hide Times, Over, Ceiling, LoweredTimes;
    var d, e := o.decrease, 1.0 - o.decrease;
    Shrink(o.minQPS, e);
    TimesCommute(e, o.minQPS);
    var unit, goal := Times(e, o.minQPS), Times(rate, d);
    var n := Ceiling(Over(goal, unit));
    OverTimes(goal, unit);
    TimesMonotone(Over(goal, unit), n as real, unit);
    Regroup(n as real, e, o.minQPS);
    TimesMonotone(Times(n as real, e), d + Times(n as real, e), o.minQPS);
    FloorReached(o, rate, n);
  }
}
