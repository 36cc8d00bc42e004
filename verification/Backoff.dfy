/** Dialling with exponential backoff, and the repository's estimate of how long that waits. */
module Backoff {
  import opened Basics

  const MILLISECOND := 1_000_000  // durations are nanoseconds

  // ---------- the arithmetic ----------

  function Pow(base: nat, n: nat): nat {
    if n == 0 then 1 else base * Pow(base, n - 1)
  }

  /** `1 + base + ... + base^(n-1)`. */
  function Geometric(base: nat, n: nat): nat {
    if n == 0 then 0 else Geometric(base, n - 1) + Pow(base, n - 1)
  }

  function Triangle(n: nat): nat {
    if n == 0 then 0 else Triangle(n - 1) + n
  }

  lemma {:induction false} TriangleFormula(n: nat)
    ensures 2 * Triangle(n) == n * (n + 1)
  {
    if n > 0 {
      TriangleFormula(n - 1);
    }
  }

  lemma {:induction false} DoublingFormula(n: nat)
    ensures Geometric(2, n) == Pow(2, n) - 1
  {
    if n > 0 {
      DoublingFormula(n - 1);
    }
  }

  lemma {:induction false} PowOutgrows(base: nat, n: nat)
    requires base >= 2
    ensures Pow(base, n) >= n + 1
    ensures n >= 2 ==> Pow(base, n) > n + 1
  {
    if n > 0 {
      PowOutgrows(base, n - 1);
      MulMonotone(2, base, Pow(base, n - 1), Pow(base, n - 1));
    }
  }

  lemma {:induction false} TriangleBelowGeometric(base: nat, n: nat)
    requires base >= 2
    ensures Triangle(n) <= Geometric(base, n)
    ensures n >= 3 ==> Triangle(n) < Geometric(base, n)
  {
    if n > 0 {
      TriangleBelowGeometric(base, n - 1);
      PowOutgrows(base, n - 1);
    }
  }

  // ---------- the estimate ----------

  /** The estimate in whole milliseconds: the loop starts from one step even if there is none. */
  function EstimateMS(durationMS: nat, steps: int): nat {
    durationMS * Triangle(if steps > 1 then steps else 1)
  }

  method MinTotalBackoffDuration(duration: nat, steps: int) returns (total: nat)
    ensures total == EstimateMS(duration / MILLISECOND, steps) * MILLISECOND
    ensures steps <= 1 ==> total == duration / MILLISECOND * MILLISECOND
    ensures steps >= 1 ==> 2 * total == duration / MILLISECOND * (steps * (steps + 1)) * MILLISECOND
  {
    var initial := duration / MILLISECOND;
    var retMS := initial;
    var i := 2;
    while i <= steps
      invariant 2 <= i && (i <= steps + 1 || i == 2)
      invariant retMS == initial * Triangle(i - 1)
    {
      assert initial * Triangle(i - 1) + initial * i == initial * Triangle(i);
      retMS := retMS + initial * i;
      i := i + 1;
    }
    total := retMS * MILLISECOND;
    if steps >= 1 {
      TriangleFormula(steps);
      DoubledProduct(initial, Triangle(steps), steps * (steps + 1));
    }
    assert Triangle(1) == 1;
  }

  // ---------- the schedule ----------

  type Factor = f: real | f >= 0.0

  /** `wait.Backoff`, a value that `Step` changes: it returns at least the current duration, then
      multiplies it, and stops at the cap if there is one. */
  datatype Schedule = Schedule(duration: nat, factor: Factor, cap: nat, steps: int) {
    function Stepped(): Schedule {
      if steps < 1 then this
      else if factor == 0.0 then this.(steps := steps - 1)
      else
        var next := Grown(duration, factor);
        if 0 < cap < next then this.(duration := cap, steps := 0)
        else this.(duration := next, steps := steps - 1)
    }

    /** After `n` steps. */
    function After(n: nat): Schedule {
      if n == 0 then this else After(n - 1).Stepped()
    }
  }

  /** A duration times a factor, cut to whole nanoseconds. */
  function Grown(duration: nat, factor: Factor): nat {
    RealMonotone(0.0, factor, duration);
    (duration as real * factor).Floor
  }

  lemma RealMonotone(f: real, g: real, d: nat)
    requires f <= g
    ensures d as real * f <= d as real * g
  {
  }

  /** What an exhausted, uncancelled dial waits without jitter. */
  function ScheduledWait(s: Schedule, n: nat): nat {
    if n == 0 then 0 else ScheduledWait(s, n - 1) + s.After(n - 1).duration
  }

  lemma SteppedDoubles(s: Schedule)
    requires s.cap == 0 && s.factor >= 2.0 && s.steps >= 1
    ensures s.Stepped() == s.(duration := s.Stepped().duration, steps := s.steps - 1)
    ensures s.Stepped().duration >= 2 * s.duration
    ensures s.factor == 2.0 ==> s.Stepped().duration == 2 * s.duration
  {
    RealMonotone(2.0, s.factor, s.duration);
  }

  lemma TwiceThePower(d: nat, n: nat)
    requires n > 0
    ensures 2 * (d * Pow(2, n - 1)) == d * Pow(2, n)
  {
    Regroup(d, Pow(2, n - 1), 2);
  }

  /** Without a cap and with a factor from two on, each duration is at least twice the one before;
      at the factor of two it is exactly that. */
  lemma {:induction false} DurationsDouble(s: Schedule, n: nat)
    requires s.cap == 0 && s.factor >= 2.0 && n <= Limit(s.steps)
    ensures s.After(n).cap == 0 && s.After(n).factor == s.factor && s.After(n).steps == s.steps - n
    ensures s.After(n).duration >= s.duration * Pow(2, n)
    ensures s.factor == 2.0 ==> s.After(n).duration == s.duration * Pow(2, n)
  {
    if n == 0 {
      TimesOne(s.duration);
    } else {
      DurationsDouble(s, n - 1);
      SteppedDoubles(s.After(n - 1));
      TwiceThePower(s.duration, n);
    }
  }

  lemma {:induction false} WaitDoubles(s: Schedule, n: nat)
    requires s.cap == 0 && s.factor >= 2.0 && n <= Limit(s.steps)
    ensures ScheduledWait(s, n) >= s.duration * Geometric(2, n)
    ensures s.factor == 2.0 ==> ScheduledWait(s, n) == s.duration * Geometric(2, n)
  {
    if n > 0 {
      WaitDoubles(s, n - 1);
      DurationsDouble(s, n - 1);
      Distribute(s.duration, Geometric(2, n - 1), Pow(2, n - 1));
    }
  }

  lemma Distribute(a: nat, b: nat, c: nat)
    ensures a * (b + c) == a * b + a * c
  {
  }

  lemma Regroup(a: nat, b: nat, c: nat)
    ensures a * b * c == a * (c * b)
  {
  }

  function Limit(steps: int): nat {
    if steps > 0 then steps else 0
  }

  // ---------- the estimate against the schedule ----------

  function Estimate(s: Schedule): nat {
    EstimateMS(s.duration / MILLISECOND, s.steps) * MILLISECOND
  }

  /** In closed form: `D n (n+1) / 2` for the estimate and, at the repository's factor of two,
      `D (2^n - 1)` for the wait. */
  lemma ClosedForms(s: Schedule)
    requires s.cap == 0 && s.factor == 2.0 && s.steps >= 1
    ensures 2 * EstimateMS(s.duration / MILLISECOND, s.steps) == s.duration / MILLISECOND * (s.steps * (s.steps + 1))
    ensures ScheduledWait(s, s.steps) == s.duration * (Pow(2, s.steps) - 1)
  {
    TriangleFormula(s.steps);
    DoublingFormula(s.steps);
    WaitDoubles(s, s.steps);
    DoubledProduct(s.duration / MILLISECOND, Triangle(s.steps), s.steps * (s.steps + 1));
  }

  lemma DoubledProduct(a: nat, x: nat, y: nat)
    requires 2 * x == y
    ensures 2 * (a * x) == a * y
  {
  }

  /** The estimate is a lower bound of the wait, for every factor from two on and no cap, exactly
      when there is a step at all or less than a millisecond to wait. */
  lemma EstimateIsLowerBoundIff(s: Schedule)
    requires s.cap == 0 && s.factor >= 2.0
    ensures Estimate(s) <= ScheduledWait(s, Limit(s.steps)) <==> s.steps >= 1 || s.duration < MILLISECOND
  {
    var ms := s.duration / MILLISECOND;
    if s.steps >= 1 {
      var t, g := Triangle(s.steps), Geometric(2, s.steps);
      WaitDoubles(s, s.steps);
      TriangleBelowGeometric(2, s.steps);
      MulMonotone(ms * MILLISECOND, s.duration, t, g);
      ToNanoseconds(ms, t);
    } else {
      assert Triangle(1) == 1;
      TimesOne(ms);
    }
  }

  lemma TimesOne(a: nat)
    ensures a * 1 == a
  {
  }

  lemma ToNanoseconds(ms: nat, t: nat)
    ensures ms * t * MILLISECOND == ms * MILLISECOND * t
  {
  }

  lemma MulMonotone(a: nat, b: nat, x: nat, y: nat)
    requires a <= b && x <= y
    ensures a * x <= b * y
  {
    assert a * x <= b * x <= b * y;
  }

  lemma MulStrict(a: nat, x: nat, y: nat)
    requires a > 0 && x < y
    ensures a * x < a * y
  {
  }

  /** It is the wait itself, for every factor from two on and no cap, exactly for whole milliseconds
      and one step, or two where the second is just twice the first, or where both are nothing. At
      the factor of two that leaves one and two steps. */
  lemma EstimateIsExactIff(s: Schedule)
    requires s.cap == 0 && s.factor >= 2.0
    ensures Estimate(s) == ScheduledWait(s, Limit(s.steps)) <==>
            if s.steps < 1 then s.duration < MILLISECOND
            else
              && s.duration % MILLISECOND == 0
              && (s.duration == 0 || s.steps == 1 || (s.steps == 2 && Grown(s.duration, s.factor) == 2 * s.duration))
    ensures s.factor == 2.0 ==> Grown(s.duration, s.factor) == 2 * s.duration
  {
    if s.steps < 1 {
      assert Triangle(1) == 1;
      TimesOne(s.duration / MILLISECOND);
    } else if s.duration % MILLISECOND == 0 && s.duration == 0 {
      WholeEstimate(s);
      ZeroWaits(s, s.steps);
    } else if s.duration % MILLISECOND == 0 && s.steps <= 2 {
      ShortEstimates(s);
      ShortWaits(s);
    } else if Estimate(s) == ScheduledWait(s, s.steps) {
      ExactOnlyIfShort(s);
    }
  }

  lemma ShortEstimates(s: Schedule)
    requires s.duration % MILLISECOND == 0
    ensures s.steps == 1 ==> Estimate(s) == s.duration
    ensures s.steps == 2 ==> Estimate(s) == 3 * s.duration
  {
    SmallValues();
    if s.steps >= 1 {
      WholeEstimate(s);
    }
  }

  lemma WholeEstimate(s: Schedule)
    requires s.duration % MILLISECOND == 0 && s.steps >= 1
    ensures Estimate(s) == s.duration * Triangle(s.steps)
  {
    ToNanoseconds(s.duration / MILLISECOND, Triangle(s.steps));
  }

  lemma ExactOnlyIfShort(s: Schedule)
    requires s.cap == 0 && s.factor >= 2.0 && s.steps >= 1
    requires Estimate(s) == ScheduledWait(s, s.steps)
    ensures s.duration % MILLISECOND == 0 && (s.duration == 0 || s.steps <= 2)
  {
    var ms, rest := s.duration / MILLISECOND, s.duration % MILLISECOND;
    assert s.duration == ms * MILLISECOND + rest;
    WaitDoubles(s, s.steps);
    TriangleBelowGeometric(2, s.steps);
    ToNanoseconds(ms, Triangle(s.steps));
    ProductsReachOnlyIf(ms * MILLISECOND, rest, Triangle(s.steps), Geometric(2, s.steps));
  }

  /** A factor of zero or one leaves the duration as it is, within a cap that it does not exceed. */
  lemma {:induction false} FlatSchedule(s: Schedule, n: nat)
    requires (s.factor == 0.0 || s.factor == 1.0) && (s.cap == 0 || s.duration <= s.cap)
    ensures s.After(n).duration == s.duration && s.After(n).factor == s.factor && s.After(n).cap == s.cap
  {
    if n > 0 {
      FlatSchedule(s, n - 1);
    }
  }

  /** The wait of one step and of two, whatever the factor and the cap. */
  lemma ShortWaits(s: Schedule)
    ensures ScheduledWait(s, 1) == s.duration
    ensures ScheduledWait(s, 2) == s.duration + s.Stepped().duration
  {
    assert s.After(1) == s.After(0).Stepped() && s.After(0) == s;
    assert ScheduledWait(s, 1) == ScheduledWait(s, 0) + s.After(0).duration;
    assert ScheduledWait(s, 2) == ScheduledWait(s, 1) + s.After(1).duration;
  }

  lemma {:induction false} ZeroWaits(s: Schedule, n: nat)
    ensures s.duration == 0 && s.cap == 0 ==>
              ScheduledWait(s, n) == 0 && s.After(n).duration == 0 && s.After(n).cap == 0
  {
    if n > 0 {
      ZeroWaits(s, n - 1);
    }
  }

  lemma ProductsReachOnlyIf(whole: nat, rest: nat, t: nat, g: nat)
    requires 1 <= t <= g && whole * t >= (whole + rest) * g
    ensures rest == 0 && (whole == 0 || t == g)
  {
    assert (whole + rest) * g == whole * g + rest * g;
    MulMonotone(whole, whole, t, g);
    if rest > 0 {
      MulMonotone(1, rest, 1, g);
    }
    if whole > 0 && t < g {
      MulStrict(whole, t, g);
    }
  }

  lemma SmallValues()
    ensures Triangle(1) == Geometric(2, 1) == 1
    ensures Triangle(2) == Geometric(2, 2) == 3
  {
    assert Pow(2, 1) == 2 * Pow(2, 0);
  }

  // ---------- which schedules the estimate fits ----------

  /** The estimate is a lower bound of the wait. */
  predicate Underestimated(s: Schedule) {
    Estimate(s) <= ScheduledWait(s, Limit(s.steps))
  }

  lemma RealStrict(f: real, g: real, d: nat)
    requires f < g && d > 0
    ensures d as real * f < d as real * g
  {
  }

  lemma GrownBelowDouble(d: nat, f: Factor)
    requires f < 2.0 && d > 0
    ensures Grown(d, f) < 2 * d
  {
    RealStrict(f, 2.0, d);
    assert d as real * 2.0 == (2 * d) as real;
    FloorBelow(d as real * f, 2 * d);
  }

  lemma FloorBelow(x: real, n: int)
    requires x < n as real
    ensures x.Floor < n
  {
    assert x.Floor as real <= x;
  }

  function Max(a: nat, b: nat): nat {
    if a < b then b else a
  }

  lemma SteppedStaysCapped(s: Schedule, most: nat)
    requires 0 < s.cap <= most && s.duration <= most
    ensures s.Stepped().cap == s.cap && s.Stepped().duration <= most
  {
  }

  lemma {:induction false} CappedDurations(s: Schedule, n: nat)
    requires s.cap > 0
    ensures s.After(n).cap == s.cap && s.After(n).duration <= Max(s.duration, s.cap)
  {
    if n > 0 {
      CappedDurations(s, n - 1);
      SteppedStaysCapped(s.After(n - 1), Max(s.duration, s.cap));
    }
  }

  /** With a cap the wait grows at most linearly. */
  lemma {:induction false} CappedWaits(s: Schedule, n: nat)
    requires s.cap > 0
    ensures ScheduledWait(s, n) <= Max(s.duration, s.cap) * n
  {
    if n > 0 {
      CappedWaits(s, n - 1);
      CappedDurations(s, n - 1);
      Distribute(Max(s.duration, s.cap), n - 1, 1);
    }
  }

  /** After twice as many steps as the largest duration has nanoseconds, the estimate is over it. */
  lemma CapFails(s: Schedule)
    requires s.cap > 0 && s.duration > 0 && s.duration % MILLISECOND == 0
    requires s.steps == 2 * Max(s.duration, s.cap)
    ensures !Underestimated(s)
  {
    var most := Max(s.duration, s.cap);
    CappedWaits(s, s.steps);
    WholeEstimate(s);
    TriangleFormula(2 * most);
    TriangleOfDouble(most);
    MulMonotone(1, s.duration, Triangle(2 * most), Triangle(2 * most));
  }

  lemma TriangleOfDouble(m: nat)
    requires m > 0 && 2 * Triangle(2 * m) == 2 * m * (2 * m + 1)
    ensures Triangle(2 * m) > 2 * m * m
  {
    assert 2 * m * (2 * m + 1) == 2 * (2 * m * m) + 2 * m;
  }

  lemma SlowGrowthFails(s: Schedule)
    requires s.factor < 2.0 && s.duration > 0 && s.duration % MILLISECOND == 0 && s.steps == 2
    ensures !Underestimated(s)
  {
    ShortWaits(s);
    GrownBelowDouble(s.duration, s.factor);
    ShortEstimates(s);
  }

  /** The estimate of any positive number of whole milliseconds is a lower bound at every number of
      steps from one on if and only if the factor is at least two and there is no cap. */
  lemma UnderestimatesAlwaysIff(s: Schedule)
    requires s.duration > 0 && s.duration % MILLISECOND == 0
    ensures (forall n: int | n >= 1 :: Underestimated(s.(steps := n))) <==> s.factor >= 2.0 && s.cap == 0
  {
    if s.factor >= 2.0 && s.cap == 0 {
      forall n: int | n >= 1 ensures Underestimated(s.(steps := n)) {
        EstimateIsLowerBoundIff(s.(steps := n));
      }
    } else if s.factor < 2.0 {
      SlowGrowthFails(s.(steps := 2));
    } else {
      CapFails(s.(steps := 2 * Max(s.duration, s.cap)));
    }
  }

  // ---------- dialling ----------

  /** How a dial ends, and for a failed one the jitter of the sleep and whether the context is done
      before it is over. */
  datatype Try = Connected | Refused(error: string, jitter: nat, cancelled: bool)

  datatype DialResult = Conn | Cancelled | Failed(error: Option<string>)

  predicate Goes(t: Try) {
    t.Refused? && !t.cancelled
  }

  /** The sleeps so far are the first of the schedule, each with the jitter of its dial. */
  ghost predicate Slept(s: Schedule, tries: seq<Try>, sleeps: seq<nat>) {
    && |sleeps| <= |tries|
    && forall i | 0 <= i < |sleeps| :: tries[i].Refused? && sleeps[i] == s.After(i).duration + tries[i].jitter
  }

  lemma SleptOneMore(s: Schedule, tries: seq<Try>, sleeps: seq<nat>, sleep: nat)
    requires Slept(s, tries, sleeps) && |sleeps| < |tries| && tries[|sleeps|].Refused?
    requires sleep == s.After(|sleeps|).duration + tries[|sleeps|].jitter
    ensures Slept(s, tries, sleeps + [sleep])
  {
  }

  /** The function that `DialContextWithRetry` returns; `backoff` is the value it has captured. */
  class Dialer {
    var backoff: Schedule

    constructor (backoff: Schedule)
      ensures this.backoff == backoff
    {
      this.backoff := backoff;
    }

    /** At most `steps` dials. The n-th sleep is the n-th of the captured schedule plus its jitter.
        The captured value itself is not changed, so every call starts from the same schedule.
        `tries` is how the dials would go, as many as there can be. */
    method Dial(tries: seq<Try>) returns (result: DialResult, dials: nat, sleeps: seq<nat>)
      requires backoff.steps <= |tries|
      ensures dials <= Limit(backoff.steps) && dials <= |tries|
      ensures forall i | 0 <= i < dials - 1 :: Goes(tries[i])
      ensures dials - 1 <= |sleeps| <= dials && Slept(backoff, tries, sleeps)
      ensures result.Conn? <==> dials > 0 && tries[dials - 1].Connected?
      ensures result.Cancelled? <==> dials > 0 && tries[dials - 1].Refused? && tries[dials - 1].cancelled
      ensures result.Failed? ==> |sleeps| == dials == Limit(backoff.steps)
      ensures result.Failed? ==> result.error == if dials > 0 then Some(tries[dials - 1].error) else None
    {
      var numDialTries := backoff.steps;
      var local := backoff;
      var lastError: Option<string> := None;
      dials, sleeps := 0, [];
      while dials < numDialTries
        invariant dials <= Limit(numDialTries) && dials == |sleeps|
        invariant local == backoff.After(dials) && Slept(backoff, tries, sleeps)
        invariant forall i | 0 <= i < dials :: Goes(tries[i])
        invariant lastError == if dials > 0 then Some(tries[dials - 1].error) else None
      {
        var t := tries[dials];
        dials := dials + 1;
        if t.Connected? {
          return Conn, dials, sleeps;
        }
        lastError := Some(t.error);
        SleptOneMore(backoff, tries, sleeps, local.duration + t.jitter);
        sleeps, local := sleeps + [local.duration + t.jitter], local.Stepped();
        if t.cancelled {
          return Cancelled, dials, sleeps;
        }
      }
      result := Failed(lastError);
    }
  }

  function Total(sleeps: seq<nat>): nat {
    if sleeps == [] then 0 else Total(sleeps[..|sleeps| - 1]) + sleeps[|sleeps| - 1]
  }

  lemma {:induction false} SleepsReachSchedule(s: Schedule, sleeps: seq<nat>)
    requires forall i | 0 <= i < |sleeps| :: sleeps[i] >= s.After(i).duration
    ensures Total(sleeps) >= ScheduledWait(s, |sleeps|)
  {
    if sleeps != [] {
      SleepsReachSchedule(s, sleeps[..|sleeps| - 1]);
    }
  }

  /** A dial that fails after all its steps has waited at least the estimate, jitter or not. */
  lemma ExhaustedDialOutlastsEstimate(s: Schedule, sleeps: seq<nat>)
    requires s.cap == 0 && s.factor >= 2.0 && s.steps >= 1 && |sleeps| == s.steps
    requires forall i | 0 <= i < |sleeps| :: sleeps[i] >= s.After(i).duration
    ensures Total(sleeps) >= Estimate(s)
  {
    SleepsReachSchedule(s, sleeps);
    EstimateIsLowerBoundIff(s);
  }
}
