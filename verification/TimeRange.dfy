/** Rounding of query windows and choice of step intervals: common/query_range.go, anomaly/params.go,
    rules/anomaly.go and the frontend's getStep.ts. Times are milliseconds unless said otherwise. */
module TimeRange {
  import opened Wrappers
  import opened QueryModel

  // ---- Go's integer division and remainder truncate toward zero ----

  function Abs(a: int): nat {
    if a < 0 then -a else a
  }

  function GoDiv(a: int, b: int): int
    requires b != 0
  {
    if (a < 0) == (b < 0) then Abs(a) / Abs(b) else -(Abs(a) / Abs(b))
  }

  function GoMod(a: int, b: int): int
    requires b != 0
  {
    if a < 0 then -(Abs(a) % Abs(b)) else Abs(a) % Abs(b)
  }

  lemma GoDivMod(a: int, b: int)
    requires b != 0
    ensures a == b * GoDiv(a, b) + GoMod(a, b)
    ensures Abs(GoMod(a, b)) < Abs(b)
  {
    var x: int, y: int := Abs(a), Abs(b);
    var q := x / y;
    assert x == y * q + x % y;
    assert b * (-q) == -(b * q) && (-y) * q == -(y * q);
  }

  /** start - start % unit */
  function RoundTo(a: int, unit: int): int
    requires unit != 0
  {
    a - GoMod(a, unit)
  }

  lemma RoundIsMultiple(a: int, unit: int)
    requires unit > 0
    ensures RoundTo(a, unit) == unit * GoDiv(a, unit)
    ensures RoundTo(a, unit) % unit == 0
    ensures a >= 0 ==> 0 <= RoundTo(a, unit) && a - unit < RoundTo(a, unit) <= a
    ensures a <= 0 ==> 0 >= RoundTo(a, unit) && a <= RoundTo(a, unit) < a + unit
  {
    GoDivMod(a, unit);
    MultipleMod(GoDiv(a, unit), unit);
  }

  lemma ProductAtLeast(unit: int, d: int)
    requires unit > 0 && d >= 1
    ensures unit * d >= unit
  {
  }

  lemma MultipleMod(k: int, unit: int)
    requires unit > 0
    ensures (unit * k) % unit == 0
  {
    var r, q := (unit * k) % unit, (unit * k) / unit;
    assert unit * k == unit * q + r;
    assert unit * (k - q) == unit * k - unit * q == r;
    if k > q {
      ProductAtLeast(unit, k - q);
    } else if k < q {
      ProductAtLeast(unit, q - k);
      assert unit * (q - k) == -(unit * (k - q));
    }
  }

  lemma RoundIsMonotone(a: int, b: int, unit: int)
    requires unit > 0 && a <= b
    ensures RoundTo(a, unit) <= RoundTo(b, unit)
  {
    RoundIsMultiple(a, unit);
    RoundIsMultiple(b, unit);
    MultiplesInOrder(GoDiv(a, unit), GoDiv(b, unit), unit, a, b);
  }

  lemma MultiplesInOrder(i: int, j: int, unit: int, a: int, b: int)
    requires unit > 0 && a <= b
    requires (a >= 0 ==> a - unit < unit * i <= a) && (a <= 0 ==> a <= unit * i < a + unit)
    requires (b >= 0 ==> b - unit < unit * j <= b) && (b <= 0 ==> b <= unit * j < b + unit)
    ensures unit * i <= unit * j
  {
    hide *;
    if i > j {
      ProductAtLeast(unit, i - j);
      assert unit * (i - j) == unit * i - unit * j;
      if a > 0 || b < 0 {
      } else {
        ProductSign(unit, i);
        ProductSign(unit, j);
      }
    } else if i < j {
      ProductAtLeast(unit, j - i);
      assert unit * (j - i) == unit * j - unit * i;
    }
  }

  lemma ProductSign(unit: int, i: int)
    requires unit > 0
    ensures i >= 1 ==> unit * i >= unit
    ensures i <= -1 ==> unit * i <= -unit
  {
    if i <= -1 {
      ProductAtLeast(unit, -i);
      assert unit * (-i) == -(unit * i);
    }
  }

  /** A multiple of a bigger unit that is at most b is at most b rounded to the smaller one. */
  lemma CoarseBelowFine(k: int, coarse: int, fine: int, b: int)
    requires fine > 0 && coarse > 0 && coarse % fine == 0 && 0 <= coarse * k <= b
    ensures coarse * k <= RoundTo(b, fine)
  {
    var m := coarse / fine;
    assert coarse == fine * m;
    Associate(fine, m, k);
    RoundIsMultiple(b, fine);
    var i, j := m * k, GoDiv(b, fine);
    if i > j {
      assert fine * (i - j) == fine * i - fine * j;
      ProductAtLeast(fine, i - j);
    } else {
      OrderedProduct(fine, i, j);
    }
  }

  lemma Associate(x: int, y: int, z: int)
    ensures (x * y) * z == x * (y * z)
  {
  }

  lemma OrderedProduct(unit: int, i: int, j: int)
    requires unit > 0 && i <= j
    ensures unit * i <= unit * j
  {
  }

  // ---- AdjustedMetricTimeRange ----

  datatype MetricQuery = MetricQuery(
    functions: seq<string>, aggregateIsRate: bool, timeAggregationIsRate: bool, temporality: Temporality)

  const RUNNING_DIFF := "runningDiff"

  /** How many steps the start is moved back besides its alignment. */
  function ExtraSteps(mq: MetricQuery): (n: nat)
    ensures n <= 2
  {
    (if (mq.aggregateIsRate || mq.timeAggregationIsRate) && mq.temporality != Delta then 1 else 0)
    + (if RUNNING_DIFF in mq.functions then 1 else 0)
  }

  function AdjustedStart(start: int, step: int, mq: MetricQuery): int
    requires step != 0
  {
    RoundTo(start, step * 1000) - ExtraSteps(mq) * (step * 1000)
  }

  function AdjustedEnd(end: int, step: int): int
    requires step != 0
  {
    RoundTo(end, (if step < 60 then step else 60) * 1000)
  }

  method AdjustedMetricTimeRange(start: int, end: int, step: int, mq: MetricQuery) returns (s: int, e: int)
    requires step != 0
    ensures s == AdjustedStart(start, step, mq) && e == AdjustedEnd(end, step)
    // the start goes to its step, and one step further for each of the two reasons; the end goes to its step or minute
    ensures step > 0 && start >= 0 ==>
      var unit := step * 1000;
      var rate := (mq.aggregateIsRate || mq.timeAggregationIsRate) && mq.temporality != Delta;
      var diff := "runningDiff" in mq.functions;
      && s % unit == 0
      && (!rate && !diff ==> s <= start < s + unit)
      && (rate != diff ==> s + unit <= start < s + 2 * unit)
      && (rate && diff ==> s + 2 * unit <= start < s + 3 * unit)
    ensures step > 0 && end >= 0 ==>
      var grain := (if step < 60 then step else 60) * 1000; e % grain == 0 && e <= end < e + grain
  {
    if step > 0 {
      AdjustedStartIsAligned(start, step, mq);
      AdjustedEndIsAligned(end, step);
    }
    s := start - GoMod(start, step * 1000);
    var hasRunningDiff := false;
    for i := 0 to |mq.functions|
      invariant !hasRunningDiff && RUNNING_DIFF !in mq.functions[..i]
    {
      if mq.functions[i] == RUNNING_DIFF {
        hasRunningDiff := true;
        break;
      }
    }
    if (mq.aggregateIsRate || mq.timeAggregationIsRate) && mq.temporality != Delta {
      s := s - step * 1000;
    }
    if hasRunningDiff {
      s := s - step * 1000;
    }
    var adjustStep := if step < 60 then step else 60;
    e := end - GoMod(end, adjustStep * 1000);
  }

  /** The start lies on a step boundary, less than three steps before the original. */
  lemma AdjustedStartIsAligned(start: int, step: int, mq: MetricQuery)
    requires step > 0
    ensures AdjustedStart(start, step, mq) % (step * 1000) == 0
    ensures start - 3 * (step * 1000) < AdjustedStart(start, step, mq)
    ensures start >= 0 ==> AdjustedStart(start, step, mq) <= start
    ensures start >= 0 ==> 0 <= start - ExtraSteps(mq) * (step * 1000) - AdjustedStart(start, step, mq) < step * 1000
  {
    hide RoundTo, GoDiv, GoMod, ExtraSteps;
    var unit := step * 1000;
    RoundIsMultiple(start, unit);
    BackBySteps(RoundTo(start, unit), unit, GoDiv(start, unit), ExtraSteps(mq));
  }

  lemma BackBySteps(base: int, unit: int, k: int, n: nat)
    requires unit > 0 && base == unit * k && n <= 2
    ensures (base - n * unit) % unit == 0 && 0 <= n * unit <= 2 * unit
  {
    assert base - n * unit == unit * (k - n);
    MultipleMod(k - n, unit);
  }

  /** The end goes back to the last multiple of the step, or of a minute if the step is longer. */
  lemma AdjustedEndIsAligned(end: int, step: int)
    requires step > 0
    ensures AdjustedEnd(end, step) % ((if step < 60 then step else 60) * 1000) == 0
    ensures end >= 0 ==>
      AdjustedEnd(end, step) <= end < AdjustedEnd(end, step) + (if step < 60 then step else 60) * 1000
  {
    RoundIsMultiple(end, (if step < 60 then step else 60) * 1000);
  }

  ghost predicate NeverInverts(step: int, mq: MetricQuery)
    requires step != 0
  {
    forall start, end :: 0 <= start <= end ==> AdjustedStart(start, step, mq) <= AdjustedEnd(end, step)
  }

  lemma RangeStaysUpright(start: int, end: int, step: int, mq: MetricQuery)
    requires step > 0 && 0 <= start <= end
    requires step <= 60 || step % 60 == 0 || ExtraSteps(mq) >= 1
    ensures AdjustedStart(start, step, mq) <= AdjustedEnd(end, step)
  {
    hide GoMod, GoDiv, RoundTo;
    var unit, fine := step * 1000, (if step < 60 then step else 60) * 1000;
    RoundIsMultiple(start, unit);
    RoundIsMultiple(end, fine);
    if ExtraSteps(mq) == 0 {
      WholeMinutes(step);
      var k := GoDiv(start, unit);
      CoarseBelowFine(k, unit, fine, end);
    }
  }

  lemma WholeMinutes(step: int)
    requires 0 < step <= 60 || (step > 0 && step % 60 == 0)
    ensures (step * 1000) % ((if step < 60 then step else 60) * 1000) == 0
  {
    if step > 60 {
      assert step * 1000 == 60000 * (step / 60);
      MultipleMod(step / 60, 60000);
    } else {
      MultipleMod(1, step * 1000);
    }
  }

  lemma PartialMinutesInvert(step: int, mq: MetricQuery)
    requires step > 60 && step % 60 != 0 && ExtraSteps(mq) == 0
    ensures AdjustedStart(step * 1000, step, mq) > AdjustedEnd(step * 1000, step)
  {
    assert GoMod(step * 1000, step * 1000) == 0;
  }

  /** No range is ever inverted exactly when the step is at most a minute, or whole minutes, or the query
      reads at least one extra step. */
  lemma NeverInvertsIff(step: int, mq: MetricQuery)
    requires step > 0
    ensures NeverInverts(step, mq) <==> step <= 60 || step % 60 == 0 || ExtraSteps(mq) >= 1
  {
    hide AdjustedStart, AdjustedEnd, ExtraSteps;
    if step <= 60 || step % 60 == 0 || ExtraSteps(mq) >= 1 {
      forall start, end | 0 <= start <= end ensures AdjustedStart(start, step, mq) <= AdjustedEnd(end, step) {
        RangeStaysUpright(start, end, step, mq);
      }
    } else {
      PartialMinutesInvert(step, mq);
      var start := step * 1000;
      assert 0 <= start <= start && AdjustedStart(start, step, mq) > AdjustedEnd(start, step);
    }
  }

  ghost predicate NeverInvertsAnyTime(step: int, mq: MetricQuery)
    requires step != 0
  {
    forall start, end :: start <= end ==> AdjustedStart(start, step, mq) <= AdjustedEnd(end, step)
  }

  /** With times before 1970 allowed, where the remainders are negative, steps above a minute need an extra step. */
  lemma NeverInvertsAnyTimeIff(step: int, mq: MetricQuery)
    requires step > 0
    ensures NeverInvertsAnyTime(step, mq) <==> step <= 60 || ExtraSteps(mq) >= 1
  {
    hide RoundTo, ExtraSteps;
    if step <= 60 || ExtraSteps(mq) >= 1 {
      forall start, end | start <= end ensures AdjustedStart(start, step, mq) <= AdjustedEnd(end, step) {
        if step <= 60 {
          RoundIsMonotone(start, end, step * 1000);
          assert ExtraSteps(mq) * (step * 1000) >= 0;
        } else {
          ExtraStepReachesBack(start, end, step, ExtraSteps(mq));
        }
      }
    } else {
      MinuteBefore1970(step * 1000);
      assert AdjustedStart(-60_000, step, mq) > AdjustedEnd(-60_000, step);
    }
  }

  lemma ExtraStepReachesBack(start: int, end: int, step: int, extra: nat)
    requires step > 60 && extra >= 1 && start <= end
    ensures RoundTo(start, step * 1000) - extra * (step * 1000) <= RoundTo(end, 60 * 1000)
  {
    hide RoundTo, GoDiv;
    RoundIsMultiple(start, step * 1000);
    RoundIsMultiple(end, 60 * 1000);
    assert extra * (step * 1000) >= step * 1000;
  }

  lemma MinuteBefore1970(unit: int)
    requires unit > 60_000
    ensures RoundTo(-60_000, unit) == 0 && RoundTo(-60_000, 60 * 1000) == -60_000
  {
    assert 60_000 % unit == 60_000;
  }

  // ---- Step intervals ----

  const MAX_ALLOWED_POINTS := 300

  function MinAllowedStepInterval(start: int, end: int): int {
    var step := GoDiv(GoDiv(end - start, MAX_ALLOWED_POINTS), 1000);
    if step < 60 then step else step - GoMod(step, 60)
  }

  /** The step of a whole request. */
  function RequestStep(start: int, end: int): int {
    Max(MinAllowedStepInterval(start, end), 60)
  }

  /** The greatest whole number of seconds, below a minute, or of minutes, with which 300 steps fit into the range. */
  lemma MinAllowedStepIsGreatest(start: int, end: int)
    requires start <= end
    ensures var m, grain := MinAllowedStepInterval(start, end), if end - start < 60 * 300_000 then 1 else 60;
      && 0 <= m && m % grain == 0 && m * 300_000 <= end - start < (m + grain) * 300_000
      && (m < 60 <==> end - start < 60 * 300_000)
  {
    var d := end - start;
    assert d / 300 / 1000 == d / 300_000;
  }

  /** Lifting a positive step keeps the number of steps in the range below 600, twice the nominal 300. */
  lemma LiftedStepBoundsPoints(start: int, end: int, step: int)
    requires step >= 1
    ensures end - start < 600 * (1000 * Max(step, MinAllowedStepInterval(start, end)))
  {
  }

  /** The factor 600 cannot be improved to 599. */
  lemma BoundIsTight()
    ensures 599999 - 0 >= 599 * (1000 * Max(1, MinAllowedStepInterval(0, 599999)))
  {
  }

  /** Every positive result is a step that never inverts an adjusted range. */
  lemma MinAllowedStepNeverInverts(start: int, end: int, mq: MetricQuery)
    requires MinAllowedStepInterval(start, end) > 0
    ensures NeverInverts(MinAllowedStepInterval(start, end), mq)
  {
    NeverInvertsIff(MinAllowedStepInterval(start, end), mq);
  }

  class QueryRangeParams {
    const start: int
    const end: int
    const builderQueries: map<string, BuilderQuery>
    var step: int

    /** updateStepInterval: lift the step of every query to the minimum. */
    method UpdateStepInterval()
      modifies this`step, builderQueries.Values`stepInterval
      ensures step == Max(MinAllowedStepInterval(start, end), 60)
      ensures forall n :: n in builderQueries ==>
        builderQueries[n].stepInterval
        == Max(old(builderQueries[n].stepInterval), MinAllowedStepInterval(start, end))
    {
      step := RequestStep(start, end);
      var todo := builderQueries.Keys;
      ghost var minimum := MinAllowedStepInterval(start, end);
      while todo != {}
        invariant todo <= builderQueries.Keys && step == RequestStep(start, end)
        invariant forall n :: n in builderQueries ==>
          var q := builderQueries[n];
          q.stepInterval == Max(old(q.stepInterval), minimum) || (n in todo && q.stepInterval == old(q.stepInterval))
        decreases todo
      {
        var n :| n in todo;
        var q := builderQueries[n];
        var minStep := MinAllowedStepInterval(start, end);
        if q.stepInterval < minStep {
          q.stepInterval := minStep;
        }
        todo := todo - {n};
      }
    }
  }

  // ---- getStep.ts ----

  datatype InputFormat = Seconds | Millis | Nanos

  /** The Date made of a converted timestamp: whole milliseconds, cut toward zero. */
  function DateOf(timestamp: int, inputFormat: InputFormat): int {
    match inputFormat
    case Seconds => timestamp * 1000
    case Millis => timestamp
    case Nanos => GoDiv(timestamp, 1_000_000)
  }

  /** Seconds count a thousand each, milliseconds as they are, and of nanoseconds what is left over is dropped. */
  lemma DateOfIsMillis(timestamp: int)
    ensures DateOf(timestamp, Seconds) == 1000 * timestamp && DateOf(timestamp, Millis) == timestamp
    ensures var d := DateOf(timestamp, Nanos);
      && (timestamp >= 0 ==> 1_000_000 * d <= timestamp < 1_000_000 * (d + 1))
      && (timestamp <= 0 ==> 1_000_000 * (d - 1) < timestamp <= 1_000_000 * d)
  {
  }

  /** getStep: whole minutes, and what the backend would choose for the range the right way round; hence also for the
      range as given, unless it is long and given backwards. */
  method GetStep(start: int, end: int, inputFormat: InputFormat) returns (result: int)
    ensures result >= 60 && result % 60 == 0
    ensures var s, e := DateOf(start, inputFormat), DateOf(end, inputFormat);
      && result == RequestStep(Min(s, e), Max(s, e))
      && (result == RequestStep(s, e) <==> s <= e || s - e < 36_000_000)
  {
    hide RequestStep, GoDiv, GoMod, DateOf;
    ghost var s, e := DateOf(start, inputFormat), DateOf(end, inputFormat);
    var diffSec := Abs(GoDiv(DateOf(end, inputFormat) - DateOf(start, inputFormat), 1000));
    FrontendMeetsBackend(s, e);
    RoundIsMultiple(Max(diffSec / 300, 60), 60);
    result := Max(diffSec / 300, 60);
    result := result - GoMod(result, 60);
  }

  /** The frontend's formula for two instants d apart is the backend's for the range the right way round; the wrong way
      round the backend stays at a minute. */
  lemma FrontendMeetsBackend(start: int, end: int)
    ensures RequestStep(Min(start, end), Max(start, end)) == RoundTo(Max(Abs(GoDiv(end - start, 1000)) / 300, 60), 60)
    ensures RequestStep(Min(start, end), Max(start, end)) == RequestStep(start, end)
      <==> start <= end || start - end < 36_000_000
  {
    hide RequestStep, RoundTo, GoDiv;
    var d := Abs(end - start);
    UprightStep(Min(start, end), Max(start, end), d);
    WholeSeconds(end - start);
    if start > end {
      InvertedStep(start, end);
      MinuteUntilTenHours(d);
    }
  }

  lemma UprightStep(start: int, end: int, d: int)
    requires end - start == d >= 0
    ensures RequestStep(start, end) == RoundTo(Max(d / 300_000, 60), 60)
  {
    hide GoMod, GoDiv, RoundTo;
    NestedDivision(d);
    WholeMinutesFromSixty(d / 300_000);
  }

  lemma NestedDivision(d: nat)
    ensures GoDiv(GoDiv(d, 300), 1000) == d / 300_000
  {
  }

  lemma WholeMinutesFromSixty(q: nat)
    ensures Max(if q < 60 then q else q - GoMod(q, 60), 60) == RoundTo(Max(q, 60), 60)
  {
  }

  lemma InvertedStep(start: int, end: int)
    requires start > end
    ensures RequestStep(start, end) == 60
  {
  }

  lemma WholeSeconds(x: int)
    ensures Abs(GoDiv(x, 1000)) / 300 == Abs(x) / 300_000
  {
    assert Abs(GoDiv(x, 1000)) == Abs(x) / 1000;
  }

  lemma MinuteUntilTenHours(d: int)
    requires d >= 0
    ensures RoundTo(Max(d / 300_000, 60), 60) == 60 <==> d < 36_000_000
  {
  }

  // ---- AnomalyRule.prepareQueryRange ----

  /** Time.UnixMilli of a time in nanoseconds. */
  function UnixMilli(ts: int): int {
    ts / 1_000_000
  }

  /** m is the whole minute of x: the last one not after it, or before 1970 the first one not before it. */
  predicate IsMinuteOf(m: int, x: int) {
    m % 60_000 == 0 && (if x >= 0 then m <= x < m + 60_000 else m - 60_000 < x <= m)
  }

  lemma MinuteIsUnique(m: int, m': int, x: int)
    requires IsMinuteOf(m, x) && IsMinuteOf(m', x)
    ensures m == m'
  {
  }

  /** The window of an evaluation starts and ends at the whole minutes of its delayed bounds. */
  method PrepareQueryRange(ts: int, evalWindow: int, evalDelay: int) returns (start: int, end: int, step: int)
    // the delay counts in whole milliseconds, and only if it is positive
    ensures evalDelay <= 0 ==>
      IsMinuteOf(start, (ts - evalWindow) / 1_000_000) && IsMinuteOf(end, ts / 1_000_000)
    ensures evalDelay > 0 ==>
      && IsMinuteOf(start, (ts - evalWindow) / 1_000_000 - evalDelay / 1_000_000)
      && IsMinuteOf(end, ts / 1_000_000 - evalDelay / 1_000_000)
    ensures start == WindowStart(ts, evalWindow, evalDelay) && end == WindowEnd(ts, evalDelay)
    ensures evalWindow >= 0 ==> start <= end
    ensures step == Max(MinAllowedStepInterval(start, end), 60)
  {
    start := UnixMilli(ts - evalWindow);
    end := UnixMilli(ts);
    if evalDelay > 0 {
      start := start - GoDiv(evalDelay, 1_000_000);
      end := end - GoDiv(evalDelay, 1_000_000);
    }
    ghost var s, e := start, end;
    start := start - GoMod(start, 60 * 1000);
    end := end - GoMod(end, 60 * 1000);
    step := RequestStep(start, end);
    RoundsToMinute(s);
    RoundsToMinute(e);
    if evalWindow >= 0 {
      RoundIsMonotone(s, e, 60_000);
    }
  }

  lemma RoundsToMinute(x: int)
    ensures IsMinuteOf(RoundTo(x, 60_000), x)
  {
    RoundIsMultiple(x, 60_000);
  }

  function DelayMillis(evalDelay: int): int {
    if evalDelay > 0 then GoDiv(evalDelay, 1_000_000) else 0
  }

  function WindowStart(ts: int, evalWindow: int, evalDelay: int): int {
    RoundTo(UnixMilli(ts - evalWindow) - DelayMillis(evalDelay), 60_000)
  }

  function WindowEnd(ts: int, evalDelay: int): int {
    RoundTo(UnixMilli(ts) - DelayMillis(evalDelay), 60_000)
  }

  /** From some time on, evaluations `delta` apart never leave a gap between their windows. */
  ghost predicate WindowsTouch(delta: int, evalWindow: int, evalDelay: int, since: int) {
    forall ts :: since <= ts ==> WindowStart(ts + delta, evalWindow, evalDelay) <= WindowEnd(ts, evalDelay)
  }

  /** Rounding to minutes opens no gap between the windows of evaluations at most a window apart, and for evaluations
      further apart, by however little, there are gaps at arbitrarily late times. */
  lemma WindowsTouchIff(delta: int, evalWindow: int, evalDelay: int, since: int)
    ensures WindowsTouch(delta, evalWindow, evalDelay, since) <==> delta <= evalWindow
  {
    hide RoundTo;
    var delay := DelayMillis(evalDelay);
    if delta <= evalWindow {
      forall ts | since <= ts ensures WindowStart(ts + delta, evalWindow, evalDelay) <= WindowEnd(ts, evalDelay) {
        RoundIsMonotone(UnixMilli(ts + delta - evalWindow) - delay, UnixMilli(ts) - delay, 60_000);
      }
    } else {
      var k := 1 + Max(since, 0);
      var ts := (delay + 60_000 * k) * 1_000_000 - 1;
      LastMillisecond(delay + 60_000 * k, ts, ts + delta - evalWindow);
      LateMinutes(UnixMilli(ts) - delay, UnixMilli(ts + delta - evalWindow) - delay, k);
      assert since <= ts && ts + delta - evalWindow == (ts + delta) - evalWindow;
      assert WindowStart(ts + delta, evalWindow, evalDelay) > WindowEnd(ts, evalDelay);
    }
  }

  lemma LastMillisecond(ms: int, ts: int, later: int)
    requires ts == ms * 1_000_000 - 1 && later > ts
    ensures UnixMilli(ts) == ms - 1 && UnixMilli(later) >= ms
  {
  }

  lemma LateMinutes(before: int, after: int, k: int)
    requires k >= 1 && before == 60_000 * k - 1 && after >= 60_000 * k
    ensures RoundTo(before, 60_000) < 60_000 * k <= RoundTo(after, 60_000)
  {
    RoundsToMinute(before);
    RoundsToMinute(after);
  }
}
