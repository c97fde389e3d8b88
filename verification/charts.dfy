/** The chart data generator (generateChartData in App.tsx): the life-hours
    distribution and the cumulative carbon trend for a lifetime of `days` days.

    Shares and emission factors are exact rationals here. The source adds and
    multiplies IEEE doubles (0.33, 0.7, ...), and a rounded or floored result
    near a half or a whole can then differ by one: a vegan aged 9 has a running
    total of exactly 13.5 tonnes at "Age 9", rounded to 14, while ten double
    additions of 2.25 * 0.6 give 13.499999999999998, rounded to 13. */
module Charts {
  import opened Wrappers
  import opened Profile
  import opened Decimal
  import Metrics

  /** A chart data point; `name` is the source's `label`, a keyword in Dafny. */
  datatype ChartPoint = ChartPoint(name: string, value: int, color: Option<string>)

  /** JavaScript's Math.round: the nearest integer, halves rounded up. */
  function Round(x: real): (n: int)
    ensures n as real - 0.5 <= x < n as real + 0.5
  {
    (x + 0.5).Floor
  }

  // ---------------------------------------------------------------------------
  // Life distribution

  /** `hours` times `share`, rounded down. */
  function FloorShare(hours: int, share: real): (n: int)
    ensures n as real <= hours as real * share < n as real + 1.0
  {
    (hours as real * share).Floor
  }

  /** Five buckets in a fixed order; the first four are floored shares of the
      hours lived and "Other" takes what is left, so the values add up to the
      hours lived exactly. */
  function LifeDistribution(days: int): (r: seq<ChartPoint>)
    ensures |r| == 5
    ensures r[0].name == "Sleeping" && r[1].name == "Work/School"
    ensures r[2].name == "Digital/Screens" && r[3].name == "Eating" && r[4].name == "Other"
    ensures r[0].value + r[1].value + r[2].value + r[3].value + r[4].value == 24 * days
    ensures 100 * r[0].value <= 33 * (24 * days) < 100 * r[0].value + 100
    ensures 100 * r[1].value <= 25 * (24 * days) < 100 * r[1].value + 100
    ensures 100 * r[2].value <= 20 * (24 * days) < 100 * r[2].value + 100
    ensures 100 * r[3].value <= 8 * (24 * days) < 100 * r[3].value + 100
    ensures forall k :: 0 <= k < 5 ==> r[k].color.Some?
  {
    var hoursLived := days * 24;
    var sleepHours := FloorShare(hoursLived, 0.33);
    var workSchoolHours := FloorShare(hoursLived, 0.25);
    var screenTimeHours := FloorShare(hoursLived, 0.20);
    var eatingHours := FloorShare(hoursLived, 0.08);
    var otherHours := hoursLived - (sleepHours + workSchoolHours + screenTimeHours + eatingHours);
    [ ChartPoint("Sleeping", sleepHours, Some("#587E76")),
      ChartPoint("Work/School", workSchoolHours, Some("#2D4F4A")),
      ChartPoint("Digital/Screens", screenTimeHours, Some("#84C69B")),
      ChartPoint("Eating", eatingHours, Some("#A9B4B2")),
      ChartPoint("Other", otherHours, Some("#DCE5E3")) ]
  }

  /** "Other" holds at least 14% of the hours and less than 14% plus four hours;
      for a non-negative lifetime every bucket is non-negative. */
  lemma OtherBucketBounds(days: int)
    ensures var r := LifeDistribution(days);
      14 * (24 * days) <= 100 * r[4].value < 14 * (24 * days) + 400
    ensures days >= 0 ==> forall k :: 0 <= k < 5 ==> LifeDistribution(days)[k].value >= 0
  {
    var r := LifeDistribution(days);
    assert 100 * (r[0].value + r[1].value + r[2].value + r[3].value) <= 86 * (24 * days);
  }

  // ---------------------------------------------------------------------------
  // Carbon trend

  const BaseAnnualCarbon: real := 4.5

  /** Tonnes of CO2 per year: the base scaled once by the diet factor. */
  function AnnualCarbon(diet: Diet): (annual: real)
    ensures 2.25 <= annual <= 5.4
  {
    match diet
    case Vegan => BaseAnnualCarbon * 0.5
    case Vegetarian => BaseAnnualCarbon * 0.7
    case Omnivore => BaseAnnualCarbon * 1.2
  }

  /** Vegan < vegetarian < omnivore: the diet factors order the emissions. */
  lemma DietsOrdered()
    ensures AnnualCarbon(Vegan) < AnnualCarbon(Vegetarian) < AnnualCarbon(Omnivore)
  {
  }

  /** Whole years lived, rounded down. */
  function WholeYears(days: int): (age: int)
    ensures age == (4 * days) / 1461
    ensures age >= 0 <==> days >= 0
  {
    var age := Metrics.AgeInYears(days).Floor;
    WholeYearsExact(days, age);
    age
  }

  lemma WholeYearsExact(days: int, age: int)
    requires age == Metrics.AgeInYears(days).Floor
    ensures age == (4 * days) / 1461
  {
    var q := (4 * days) / 1461;
    var rem := (4 * days) % 1461;
    assert Metrics.AgeInYears(days) == q as real + rem as real / 1461.0;
  }

  /** The spacing of the sampled ages: a fifth of the age, at least one year. */
  function StepSize(age: int): (step: nat)
    ensures step >= 1
  {
    var steps := 5;
    if age / steps > 1 then age / steps else 1
  }

  /** Children emit 60% of the adult rate. */
  function StageMultiplier(i: int): (m: real)
    ensures 0.6 <= m <= 1.0
  {
    if i < 18 then 0.6 else 1.0
  }

  /** What one loop step adds to the running total at loop age `i`. */
  function Increment(i: int, step: nat, annual: real): real {
    annual * step as real * StageMultiplier(i)
  }

  function AgeLabel(i: int): string {
    "Age " + IntToString(i)
  }

  /** The point the loop emits at loop age `i` once the running total is `cum`. */
  function TrendPoint(i: int, cum: real): ChartPoint {
    ChartPoint(AgeLabel(i), Round(cum), None)
  }

  /** The points the sampling loop emits from loop age `i` on, with running total `cum`. */
  function LoopPoints(i: int, age: int, step: nat, annual: real, cum: real): (r: seq<ChartPoint>)
    requires step >= 1
    ensures |r| == 0 <==> i > age
    decreases age - i + 1
  {
    if i > age then []
    else
      var cum' := cum + Increment(i, step, annual);
      [TrendPoint(i, cum')] + LoopPoints(i + step, age, step, annual, cum')
  }

  /** The cumulative carbon trend. None stands for the TypeError the source raises
      when the loop emits nothing (a negative lifetime) and it reads the label of
      the missing last point. Otherwise the loop's points, followed by a corrective
      point labelled with the true age when the last loop label is a different one;
      its value is a straight-line estimate, not the running total. */
  function CarbonTrend(days: int, diet: Diet): (r: Option<seq<ChartPoint>>)
    ensures r.None? <==> days < 0
  {
    var annual := AnnualCarbon(diet);
    var age := WholeYears(days);
    var step := StepSize(age);
    CompleteTrend(LoopPoints(0, age, step, annual, 0.0), age, Metrics.AgeInYears(days) * annual)
  }

  /** The step after the loop: fail on an empty trend, otherwise make sure the
      last label names `age`, appending a point valued at `estimate` if not. */
  function CompleteTrend(trend: seq<ChartPoint>, age: int, estimate: real): (r: Option<seq<ChartPoint>>)
    ensures r.None? <==> |trend| == 0
  {
    if |trend| == 0 then None
    else if trend[|trend| - 1].name != AgeLabel(age) then Some(trend + [TrendPoint(age, estimate)])
    else Some(trend)
  }

  // ---------------------------------------------------------------------------
  // Closed form of the sampling loop

  /** The loop age after `k` steps, 0, step, 2*step, ..., built as the loop builds it. */
  function SampledAge(k: nat, step: nat): nat {
    if k == 0 then 0 else SampledAge(k - 1, step) + step
  }

  lemma {:induction false} SampledAgeIsProduct(k: nat, step: nat)
    ensures SampledAge(k, step) == k * step
  {
    if k > 0 {
      SampledAgeIsProduct(k - 1, step);
      assert (k - 1) * step + step == k * step;
    }
  }

  lemma {:induction false} SampledAgeIncreasing(i: nat, j: nat, step: nat)
    requires step >= 1
    requires i < j
    ensures SampledAge(i, step) < SampledAge(j, step)
    decreases j
  {
    if i < j - 1 {
      SampledAgeIncreasing(i, j - 1, step);
    }
  }

  /** The running total after `k` loop steps. */
  function RunningTotal(k: nat, step: nat, annual: real): real {
    if k == 0 then 0.0 else RunningTotal(k - 1, step, annual) + Increment(SampledAge(k - 1, step), step, annual)
  }

  /** How many ages 0, step, 2*step, ... lie in [0, age]. */
  function LoopCount(age: int, step: nat): nat
    requires step >= 1
  {
    if age < 0 then 0 else age / step + 1
  }

  /** The `j`-th point the loop emits. */
  function LoopPoint(j: nat, step: nat, annual: real): ChartPoint {
    TrendPoint(SampledAge(j, step), RunningTotal(j + 1, step, annual))
  }

  lemma LoopBound(k: nat, age: int, step: nat)
    requires step >= 1
    ensures SampledAge(k, step) <= age <==> k < LoopCount(age, step)
  {
    SampledAgeIsProduct(k, step);
    if age >= 0 {
      var q := age / step;
      assert age == q * step + age % step;
      if k <= q {
        assert k * step <= q * step by { MulLeq(k, q, step); }
      } else {
        assert (q + 1) * step <= k * step by { MulLeq(q + 1, k, step); }
      }
    }
  }

  lemma MulLeq(a: int, b: int, c: nat)
    requires a <= b
    ensures a * c <= b * c
  {
    assert b * c - a * c == (b - a) * c;
  }

  /** One unfolding of the loop at its `k`-th step. */
  lemma LoopPointsStep(k: nat, age: int, step: nat, annual: real)
    requires step >= 1
    requires SampledAge(k, step) <= age
    ensures LoopPoints(SampledAge(k, step), age, step, annual, RunningTotal(k, step, annual))
         == [LoopPoint(k, step, annual)]
            + LoopPoints(SampledAge(k + 1, step), age, step, annual, RunningTotal(k + 1, step, annual))
  {
  }

  /** From the `k`-th step on, the loop emits LoopCount - k points. */
  lemma {:induction false} LoopPointsFromLength(k: nat, age: int, step: nat, annual: real)
    requires step >= 1
    requires k <= LoopCount(age, step)
    ensures |LoopPoints(SampledAge(k, step), age, step, annual, RunningTotal(k, step, annual))|
         == LoopCount(age, step) - k
    decreases LoopCount(age, step) - k
  {
    LoopBound(k, age, step);
    if k < LoopCount(age, step) {
      LoopPointsStep(k, age, step, annual);
      LoopPointsFromLength(k + 1, age, step, annual);
    }
  }

  /** From the `k`-th step on, the `j`-th point emitted is LoopPoint(k + j), as long as
      its sampled age is within the age. */
  lemma {:induction false} LoopPointsFrom(k: nat, j: nat, age: int, step: nat, annual: real)
    requires step >= 1
    requires SampledAge(k + j, step) <= age
    ensures var pts := LoopPoints(SampledAge(k, step), age, step, annual, RunningTotal(k, step, annual));
      j < |pts| && pts[j] == LoopPoint(k + j, step, annual)
    decreases j
  {
    if j > 0 {
      SampledAgeIncreasing(k, k + j, step);
    }
    LoopPointsStep(k, age, step, annual);
    if j > 0 {
      LoopPointsFrom(k + 1, j - 1, age, step, annual);
    }
  }

  /** The loop emits exactly LoopCount points. */
  lemma LoopPointsLength(age: int, step: nat, annual: real)
    requires step >= 1
    ensures |LoopPoints(0, age, step, annual, 0.0)| == LoopCount(age, step)
  {
    LoopPointsFromLength(0, age, step, annual);
  }

  /** The `j`-th point the loop emits is LoopPoint(j). */
  lemma LoopPointsAt(age: int, step: nat, annual: real, j: nat)
    requires step >= 1
    requires j < LoopCount(age, step)
    ensures j < |LoopPoints(0, age, step, annual, 0.0)|
    ensures LoopPoints(0, age, step, annual, 0.0)[j] == LoopPoint(j, step, annual)
  {
    LoopBound(j, age, step);
    LoopPointsFrom(0, j, age, step, annual);
  }

  /** One step's increment is linear in the annual emission. */
  lemma IncrementScales(i: int, step: nat, annual: real)
    ensures Increment(i, step, annual) == annual * Increment(i, step, 1.0)
  {
    assert annual * step as real * StageMultiplier(i) == annual * (1.0 * step as real * StageMultiplier(i));
  }

  lemma Distribute(a: real, x: real, y: real)
    ensures a * (x + y) == a * x + a * y
  {
  }

  /** The diet factor is applied once to the whole total, not per step. */
  lemma {:induction false} AnnualCarbonAppliedOnce(k: nat, step: nat, annual: real)
    ensures RunningTotal(k, step, annual) == annual * RunningTotal(k, step, 1.0)
  {
    if k > 0 {
      AnnualCarbonAppliedOnce(k - 1, step, annual);
      IncrementScales(SampledAge(k - 1, step), step, annual);
      Distribute(annual, RunningTotal(k - 1, step, 1.0), Increment(SampledAge(k - 1, step), step, 1.0));
    }
  }

  /** Each loop step adds more than one tonne, for every diet and step size. */
  lemma {:induction false} RunningTotalIncreasing(i: nat, j: nat, step: nat, diet: Diet)
    requires step >= 1
    requires i < j
    ensures RunningTotal(i, step, AnnualCarbon(diet)) + 1.0 < RunningTotal(j, step, AnnualCarbon(diet))
    decreases j
  {
    var annual := AnnualCarbon(diet);
    assert annual * step as real >= annual by {
      assert annual * step as real - annual == annual * (step - 1) as real;
    }
    assert Increment(SampledAge(j - 1, step), step, annual) > 1.0;
    if i < j - 1 {
      RunningTotalIncreasing(i, j - 1, step, diet);
    }
  }

  /** The ages the trend's labels name: 0, step, 2*step, ... up to the age, then
      the age itself when the loop stopped short of it. */
  function TrendAges(age: int): seq<int>
    requires age >= 0
  {
    var step := StepSize(age);
    var n := LoopCount(age, step);
    seq(n, j requires 0 <= j => SampledAge(j, step)) + (if SampledAge(n - 1, step) == age then [] else [age])
  }

  /** The label ages start at 0, end at the age, and strictly increase. */
  lemma TrendAgesOrdered(age: int)
    requires age >= 0
    ensures var ages := TrendAges(age);
      && |ages| >= 1 && ages[0] == 0 && ages[|ages| - 1] == age
      && (forall i :: 0 <= i < |ages| ==> 0 <= ages[i] <= age)
      && (forall i, j :: 0 <= i < j < |ages| ==> ages[i] < ages[j])
  {
    var step := StepSize(age);
    var n := LoopCount(age, step);
    var ages := TrendAges(age);
    LoopBound(n - 1, age, step);
    forall i | 0 <= i < |ages|
      ensures 0 <= ages[i] <= age
    {
      if i < n {
        LoopBound(i, age, step);
        assert ages[i] == SampledAge(i, step);
      }
    }
    forall i, j | 0 <= i < j < |ages|
      ensures ages[i] < ages[j]
    {
      if j < n {
        SampledAgeIncreasing(i, j, step);
        assert ages[i] == SampledAge(i, step) && ages[j] == SampledAge(j, step);
      } else if i < n - 1 {
        SampledAgeIncreasing(i, n - 1, step);
        assert ages[i] == SampledAge(i, step);
      } else {
        assert ages[i] == SampledAge(i, step);
      }
    }
  }

  /** The step after the loop appends exactly when the last label names another age. */
  lemma CompleteTrendShape(trend: seq<ChartPoint>, age: int, estimate: real, lastAge: int)
    requires |trend| > 0 && trend[|trend| - 1].name == AgeLabel(lastAge)
    ensures CompleteTrend(trend, age, estimate)
      == if lastAge == age then Some(trend) else Some(trend + [TrendPoint(age, estimate)])
  {
    AgeLabelInjective(lastAge, age);
  }

  lemma AgeLabelInjective(a: int, b: int)
    ensures AgeLabel(a) == AgeLabel(b) <==> a == b
  {
    assert AgeLabel(a)[4..] == IntToString(a);
    assert AgeLabel(b)[4..] == IntToString(b);
    IntToStringInjective(a, b);
  }

  /** The trend of a non-negative lifetime as the loop's points, followed by the
      corrective point exactly when the last sampled age is not the age. */
  lemma CarbonTrendForm(days: int, diet: Diet)
    requires days >= 0
    ensures var age := WholeYears(days); var step := StepSize(age); var annual := AnnualCarbon(diet);
      var n := LoopCount(age, step); var loop := LoopPoints(0, age, step, annual, 0.0);
      && n >= 1
      && |loop| == n
      && CarbonTrend(days, diet) == if SampledAge(n - 1, step) == age then Some(loop)
         else Some(loop + [TrendPoint(age, Metrics.AgeInYears(days) * annual)])
  {
    var age := WholeYears(days);
    var step := StepSize(age);
    var annual := AnnualCarbon(diet);
    var n := LoopCount(age, step);
    var loop := LoopPoints(0, age, step, annual, 0.0);
    CarbonTrendUnfold(days, diet);
    LoopPointsLength(age, step, annual);
    CompletedLoopForm(age, step, annual, Metrics.AgeInYears(days) * annual);
  }

  lemma CompletedLoopForm(age: int, step: nat, annual: real, estimate: real)
    requires age >= 0 && step >= 1
    ensures var n := LoopCount(age, step); var loop := LoopPoints(0, age, step, annual, 0.0);
      CompleteTrend(loop, age, estimate)
        == if SampledAge(n - 1, step) == age then Some(loop) else Some(loop + [TrendPoint(age, estimate)])
  {
    var n := LoopCount(age, step);
    var loop := LoopPoints(0, age, step, annual, 0.0);
    LoopPointsLength(age, step, annual);
    LoopPointsAt(age, step, annual, n - 1);
    CompleteTrendShape(loop, age, estimate, SampledAge(n - 1, step));
  }

  lemma CarbonTrendUnfold(days: int, diet: Diet)
    ensures var age := WholeYears(days);
      CarbonTrend(days, diet) == CompleteTrend(LoopPoints(0, age, StepSize(age), AnnualCarbon(diet), 0.0),
                                               age, Metrics.AgeInYears(days) * AnnualCarbon(diet))
  {
  }

  /** The trend of a non-negative lifetime: label `j` names the `j`-th sampled age. */
  lemma CarbonTrendLabels(days: int, diet: Diet)
    requires days >= 0
    ensures var t := CarbonTrend(days, diet); var ages := TrendAges(WholeYears(days));
      && t.Some?
      && |t.value| == |ages|
      && forall j :: 0 <= j < |ages| ==> t.value[j].name == AgeLabel(ages[j])
  {
    var age := WholeYears(days);
    var step := StepSize(age);
    var n := LoopCount(age, step);
    var ages := TrendAges(age);
    CarbonTrendForm(days, diet);
    var t := CarbonTrend(days, diet).value;
    forall j | 0 <= j < |ages|
      ensures t[j].name == AgeLabel(ages[j])
    {
      if j < n {
        LoopPointsAt(age, step, AnnualCarbon(diet), j);
        assert t[j] == LoopPoint(j, step, AnnualCarbon(diet));
      }
    }
  }

  /** A non-negative lifetime's trend starts at "Age 0" and ends at the whole age. */
  lemma CarbonTrendEndpoints(days: int, diet: Diet)
    requires days >= 0
    ensures var t := CarbonTrend(days, diet);
      && t.Some? && |t.value| >= 1
      && t.value[0].name == AgeLabel(0)
      && t.value[|t.value| - 1].name == AgeLabel(WholeYears(days))
  {
    CarbonTrendLabels(days, diet);
    TrendAgesOrdered(WholeYears(days));
  }

  /** The loop's values are the rounded running totals, at least 1 and strictly increasing. */
  lemma LoopValuesIncreasing(age: int, step: nat, diet: Diet)
    requires step >= 1
    ensures var annual := AnnualCarbon(diet); var loop := LoopPoints(0, age, step, annual, 0.0);
      && (forall j :: 0 <= j < |loop| ==> loop[j].value == Round(RunningTotal(j + 1, step, annual)))
      && (forall j :: 0 <= j < |loop| ==> loop[j].value >= 1)
      && (forall i, j :: 0 <= i < j < |loop| ==> loop[i].value < loop[j].value)
  {
    var annual := AnnualCarbon(diet);
    var loop := LoopPoints(0, age, step, annual, 0.0);
    LoopPointsLength(age, step, annual);
    forall j | 0 <= j < |loop|
      ensures loop[j].value == Round(RunningTotal(j + 1, step, annual)) && loop[j].value >= 1
    {
      LoopPointsAt(age, step, annual, j);
      RunningTotalIncreasing(0, j + 1, step, diet);
    }
    forall i, j | 0 <= i < j < |loop|
      ensures loop[i].value < loop[j].value
    {
      RunningTotalIncreasing(i + 1, j + 1, step, diet);
    }
  }

  /** The values of a completed trend `t` with `n` loop points: the rounded running
      totals, strictly increasing, then the estimate when a corrective point follows;
      all non-negative. */
  predicate TrendValues(t: seq<ChartPoint>, n: nat, step: nat, annual: real, estimate: real)
  {
    && n <= |t| <= n + 1
    && (forall j :: 0 <= j < n ==> t[j].value == Round(RunningTotal(j + 1, step, annual)))
    && (forall i, j :: 0 <= i < j < n ==> t[i].value < t[j].value)
    && (|t| == n + 1 ==> t[n].value == Round(estimate))
    && (forall j :: 0 <= j < |t| ==> t[j].value >= 0)
  }

  /** The values after the post-loop step: the loop's values, then the estimate. */
  lemma CompletedLoopValues(age: int, step: nat, diet: Diet, estimate: real)
    requires age >= 0 && step >= 1
    requires estimate >= 0.0
    ensures var annual := AnnualCarbon(diet);
      TrendValues(CompleteTrend(LoopPoints(0, age, step, annual, 0.0), age, estimate).value,
        LoopCount(age, step), step, annual, estimate)
  {
    var annual := AnnualCarbon(diet);
    var loop := LoopPoints(0, age, step, annual, 0.0);
    CompletedLoopForm(age, step, annual, estimate);
    LoopPointsLength(age, step, annual);
    LoopValuesIncreasing(age, step, diet);
    var t := CompleteTrend(loop, age, estimate).value;
    assert t == loop || t == loop + [TrendPoint(age, estimate)];
    assert forall j :: 0 <= j < |loop| ==> t[j] == loop[j];
  }

  /** The values of a non-negative lifetime's trend: the rounded running totals,
      strictly increasing, then the straight-line estimate at the true age when a
      corrective point is appended. All are non-negative. */
  lemma CarbonTrendValues(days: int, diet: Diet)
    requires days >= 0
    ensures var age := WholeYears(days); var step := StepSize(age); var annual := AnnualCarbon(diet);
      TrendValues(CarbonTrend(days, diet).value, LoopCount(age, step), step, annual,
        Metrics.AgeInYears(days) * annual)
  {
    // The estimate is passed as the very term the contracts use: a copy held in a
    // local variable is a second product the solver would have to equate.
    EstimateNonNegative(days, diet);
    CarbonTrendUnfold(days, diet);
    CompletedLoopValues(WholeYears(days), StepSize(WholeYears(days)), diet,
      Metrics.AgeInYears(days) * AnnualCarbon(diet));
  }

  lemma EstimateNonNegative(days: int, diet: Diet)
    requires days >= 0
    ensures Metrics.AgeInYears(days) * AnnualCarbon(diet) >= 0.0
  {
    assert Metrics.AgeInYears(days) >= 0.0 && AnnualCarbon(diet) > 0.0;
  }

  /** However old, the loop samples between one and ten ages. */
  lemma LoopCountAtMostTen(age: int)
    requires age >= 0
    ensures 1 <= LoopCount(age, StepSize(age)) <= 10
  {
    var step := StepSize(age);
    var q := age / step;
    if age >= 10 {
      assert step == age / 5 && step >= 2;
      assert age < 5 * step + 5;
      assert q * step <= age;
      if q >= 10 {
        MulLeq(10, q, step);
        assert false;
      }
    }
  }

  /** Age 4 on a vegan diet: five loop points at ages 0 to 4, and no corrective
      point because the last loop label already names the age. */
  lemma FourYearVeganTrend()
    ensures CarbonTrend(1461, Vegan) == Some([
      ChartPoint("Age 0", 1, None), ChartPoint("Age 1", 3, None), ChartPoint("Age 2", 4, None),
      ChartPoint("Age 3", 5, None), ChartPoint("Age 4", 7, None)])
  {
    assert WholeYears(1461) == 4;
    assert StepSize(4) == 1;
    assert AnnualCarbon(Vegan) == 2.25;
    CarbonTrendUnfold(1461, Vegan);
    var loop := LoopPoints(0, 4, 1, 2.25, 0.0);
    assert loop == [TrendPoint(0, 1.35), TrendPoint(1, 2.7), TrendPoint(2, 4.05),
                    TrendPoint(3, 5.4), TrendPoint(4, 6.75)];
    assert TrendPoint(4, 6.75) == ChartPoint("Age 4", 7, None);
    assert CarbonTrend(1461, Vegan) == Some(loop);
    assert TrendPoint(0, 1.35) == ChartPoint("Age 0", 1, None);
    assert TrendPoint(1, 2.7) == ChartPoint("Age 1", 3, None);
    assert TrendPoint(2, 4.05) == ChartPoint("Age 2", 4, None);
    assert TrendPoint(3, 5.4) == ChartPoint("Age 3", 5, None);
  }

  /** With a step of one year and before age 18, the running total after `k`
      steps is k years at 60% of the annual emission. */
  lemma {:induction false} RunningTotalChildhood(k: nat, annual: real)
    requires k <= 18
    ensures RunningTotal(k, 1, annual) == 0.6 * annual * k as real
  {
    if k > 0 {
      RunningTotalChildhood(k - 1, annual);
      SampledAgeIsProduct(k - 1, 1);
    }
  }

  /** 3288 days (age 9, step 1), vegan: ten points, the last "Age 9" with the
      exact running total 13.5 rounded up to 14. */
  lemma VeganAgeNineTrend()
    ensures var t := CarbonTrend(3288, Vegan).value;
      |t| == 10 && t[9] == ChartPoint("Age 9", 14, None)
  {
    assert WholeYears(3288) == 9;
    assert StepSize(9) == 1;
    var annual := AnnualCarbon(Vegan);
    assert annual == 2.25;
    CarbonTrendForm(3288, Vegan);
    SampledAgeIsProduct(9, 1);
    LoopPointsAt(9, 1, annual, 9);
    RunningTotalChildhood(10, annual);
    assert Round(13.5) == 14;
    assert AgeLabel(9) == "Age 9";
  }

  /** The corrective point is not the running total and can fall below its
      predecessor: at 36160 days (age 99, step 19) the loop ends at "Age 95" with
      575 tonnes and the appended "Age 99" point holds 535. */
  lemma CorrectivePointMayDrop()
    ensures var t := CarbonTrend(36160, Omnivore).value;
      && |t| == 7
      && t[5] == ChartPoint("Age 95", 575, None)
      && t[6] == ChartPoint("Age 99", 535, None)
      && t[6].value < t[5].value
  {
    assert WholeYears(36160) == 99;
    assert StepSize(99) == 19;
    var annual := AnnualCarbon(Omnivore);
    assert annual == 5.4;
    CarbonTrendForm(36160, Omnivore);
    var loop := LoopPoints(0, 99, 19, annual, 0.0);
    var estimate := Metrics.AgeInYears(36160) * annual;
    assert CarbonTrend(36160, Omnivore) == Some(loop + [TrendPoint(99, estimate)]);
    LoopPointsAt(99, 19, annual, 5);
    assert RunningTotal(6, 19, annual) == 574.56;
    assert loop[5] == ChartPoint("Age 95", 575, None);
    assert 534.0 < estimate < 535.0;
    assert TrendPoint(99, estimate) == ChartPoint("Age 99", 535, None);
  }

  /** The sampling for-loop of the source, step by step. */
  method SampleTrend(age: int, stepSize: nat, annualCarbon: real) returns (points: seq<ChartPoint>)
    requires stepSize >= 1
    ensures points == LoopPoints(0, age, stepSize, annualCarbon, 0.0)
  {
    points := [];
    var cumulativeCarbon := 0.0;
    var i := 0;
    while i <= age
      invariant 0 <= i
      invariant points + LoopPoints(i, age, stepSize, annualCarbon, cumulativeCarbon)
                == LoopPoints(0, age, stepSize, annualCarbon, 0.0)
      decreases age - i + 1
    {
      cumulativeCarbon := cumulativeCarbon + Increment(i, stepSize, annualCarbon);
      points := points + [TrendPoint(i, cumulativeCarbon)];
      i := i + stepSize;
    }
    assert LoopPoints(i, age, stepSize, annualCarbon, cumulativeCarbon) == [];
  }

  /** The carbon half of generateChartData as the source runs it. */
  method GenerateCarbonTrend(days: int, diet: Diet) returns (trend: Option<seq<ChartPoint>>)
    ensures trend == CarbonTrend(days, diet)
  {
    var annualCarbon := AnnualCarbon(diet);
    var age := WholeYears(days);
    var stepSize := StepSize(age);
    var points := SampleTrend(age, stepSize, annualCarbon);
    CarbonTrendUnfold(days, diet);
    if |points| == 0 {
      trend := None;
    } else if points[|points| - 1].name != AgeLabel(age) {
      trend := Some(points + [TrendPoint(age, Metrics.AgeInYears(days) * annualCarbon)]);
    } else {
      trend := Some(points);
    }
  }
}
